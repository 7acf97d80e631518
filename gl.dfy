/**
 * The rasterizer: scan a triangle's screen bounding box, keep the pixels whose
 * screen weights are all non-negative, interpolate depth with perspective-
 * corrected weights, apply a greater-wins depth test, and paint what the
 * fragment stage returns; and the render loop over a model's triangles.
 */
module Gl {
  import opened Wrappers
  import opened Linalg
  import opened Casts
  import opened Images
  import opened MathUtils
  import opened TriangleData
  import opened Shaders
  import opened RealArith

  function Min(a: int, b: int): int { if a <= b then a else b }
  function Max(a: int, b: int): int { if a <= b then b else a }
  function Min3(a: int, b: int, c: int): int { Min(a, Min(b, c)) }
  function Max3(a: int, b: int, c: int): int { Max(a, Max(b, c)) }

  /** Perspective divide of a clip-space point onto the screen. */
  function ScreenPoint(v: Vec4): (p: Vec2)
    requires v.w > 0.0
    ensures v.w == 1.0 ==> p == Vec2(v.x, v.y)
    ensures p.x * v.w == v.x && p.y * v.w == v.y
  {
    Vec2(v.x / v.w, v.y / v.w)
  }

  /** `v.round() as u32`: nearest integer, then the saturating cast. */
  function RoundU32(v: real): (r: u32)
    ensures v < 0.5 ==> r == 0
    ensures 0.0 <= v <= U32_MAX as real ==> v - 0.5 <= r as real <= v + 0.5
  {
    SatU32(Round(v) as real)
  }

  /** Rounding to a pixel never crosses a pixel coordinate that bounds the value. */
  lemma RoundU32Below(m: real, x: nat)
    requires m <= x as real && x <= U32_MAX
    ensures RoundU32(m) <= x
  {
    RoundBrackets(m, x);
  }

  lemma RoundU32Above(m: real, x: nat)
    requires x as real <= m && x <= U32_MAX
    ensures x <= RoundU32(m)
  {
    RoundBrackets(m, x);
    var v := Round(m);
    if 1 <= v <= U32_MAX {
      assert SatU32(v as real) as real <= v as real < SatU32(v as real) as real + 1.0;
    }
  }

  /** An inclusive pixel rectangle; empty when a minimum exceeds its maximum. */
  datatype Box = Box(minX: int, minY: int, maxX: int, maxY: int) {
    predicate Contains(x: int, y: int) {
      minX <= x <= maxX && minY <= y <= maxY
    }
  }

  /** The screen bounding box of the triangle, rounded to pixels and clipped to the image. */
  function BoundingBox(a2: Vec2, b2: Vec2, c2: Vec2, width: u32, height: u32): (box: Box)
    requires width >= 1 && height >= 1
    ensures 0 <= box.minX && box.maxX < width && 0 <= box.minY && box.maxY < height
  {
    Box(Max(0, Min3(RoundU32(a2.x), RoundU32(b2.x), RoundU32(c2.x))),
        Max(0, Min3(RoundU32(a2.y), RoundU32(b2.y), RoundU32(c2.y))),
        Min(width as int - 1, Max3(RoundU32(a2.x), RoundU32(b2.x), RoundU32(c2.x))),
        Min(height as int - 1, Max3(RoundU32(a2.y), RoundU32(b2.y), RoundU32(c2.y))))
  }

  /**
   * A triangle wholly right of (or below) the image leaves an empty range of
   * columns (rows), so the scan does nothing; one left of (or above) pixel
   * centre 0.5 keeps just column (row) 0.
   */
  lemma BoxBeyondImage(a2: Vec2, b2: Vec2, c2: Vec2, width: u32, height: u32)
    requires width >= 1 && height >= 1
    ensures var box := BoundingBox(a2, b2, c2, width, height);
      && (a2.x >= width as real && b2.x >= width as real && c2.x >= width as real ==> box.minX > box.maxX)
      && (a2.y >= height as real && b2.y >= height as real && c2.y >= height as real ==> box.minY > box.maxY)
      && (a2.x < 0.5 && b2.x < 0.5 && c2.x < 0.5 ==> box.minX == box.maxX == 0)
      && (a2.y < 0.5 && b2.y < 0.5 && c2.y < 0.5 ==> box.minY == box.maxY == 0)
  {
    if a2.x >= width as real && b2.x >= width as real && c2.x >= width as real {
      RoundU32Above(a2.x, width);
      RoundU32Above(b2.x, width);
      RoundU32Above(c2.x, width);
    }
    if a2.y >= height as real && b2.y >= height as real && c2.y >= height as real {
      RoundU32Above(a2.y, height);
      RoundU32Above(b2.y, height);
      RoundU32Above(c2.y, height);
    }
  }

  /** Three values weighted by l. */
  function Blend(l: Vec3, u: real, v: real, w: real): real {
    u * l.x + v * l.y + w * l.z
  }

  /** A convex combination of three numbers lies between the least and the greatest of them. */
  lemma ConvexBetween(l: Vec3, u: real, v: real, w: real)
    requires NonNegative(l) && l.x + l.y + l.z == 1.0
    ensures u <= Blend(l, u, v, w) || v <= Blend(l, u, v, w) || w <= Blend(l, u, v, w)
    ensures Blend(l, u, v, w) <= u || Blend(l, u, v, w) <= v || Blend(l, u, v, w) <= w
  {
    var p := Blend(l, u, v, w);
    if u > p && v > p && w > p {
      SumOfWeightedGaps(l, u - p, v - p, w - p);
      assert false;
    }
    if u < p && v < p && w < p {
      SumOfWeightedGaps(l, p - u, p - v, p - w);
      assert false;
    }
  }

  /** Positive gaps under non-negative weights that sum to one add up to something positive. */
  lemma SumOfWeightedGaps(l: Vec3, du: real, dv: real, dw: real)
    requires NonNegative(l) && l.x + l.y + l.z == 1.0
    requires du > 0.0 && dv > 0.0 && dw > 0.0
    ensures l.x * du + l.y * dv + l.z * dw > 0.0
  {
    var t1, t2, t3 := l.x * du, l.y * dv, l.z * dw;
    MulNonNegative(l.x, du);
    MulNonNegative(l.y, dv);
    MulNonNegative(l.z, dw);
    if l.x > 0.0 { MulPositive(l.x, du); }
    else if l.y > 0.0 { MulPositive(l.y, dv); }
    else { MulPositive(l.z, dw); }
    assert t1 >= 0.0 && t2 >= 0.0 && t3 >= 0.0 && (t1 > 0.0 || t2 > 0.0 || t3 > 0.0);
  }

  /**
   * Along one axis: a pixel coordinate `q` that is a convex combination of the
   * three screen coordinates lies within the rounded, clipped extent.
   */
  lemma AxisCovers(l: Vec3, av: real, bv: real, cv: real, q: nat, size: u32)
    requires NonNegative(l) && l.x + l.y + l.z == 1.0
    requires q as real == Blend(l, av, bv, cv) && q < size
    ensures Max(0, Min3(RoundU32(av), RoundU32(bv), RoundU32(cv))) <= q
    ensures q <= Min(size as int - 1, Max3(RoundU32(av), RoundU32(bv), RoundU32(cv)))
  {
    ConvexBetween(l, av, bv, cv);
    if av <= q as real { RoundU32Below(av, q); } else if bv <= q as real { RoundU32Below(bv, q); } else { RoundU32Below(cv, q); }
    if q as real <= av { RoundU32Above(av, q); } else if q as real <= bv { RoundU32Above(bv, q); } else { RoundU32Above(cv, q); }
  }

  /** The box misses no pixel of the image that passes the inside test. */
  lemma BoxCovers(a2: Vec2, b2: Vec2, c2: Vec2, width: u32, height: u32, x: nat, y: nat)
    requires width >= 1 && height >= 1 && x < width && y < height
    requires NonNegative(ToBarycentric(Vec2(x as real, y as real), a2, b2, c2))
    ensures BoundingBox(a2, b2, c2, width, height).Contains(x, y)
  {
    var p := Vec2(x as real, y as real);
    if Degenerate(a2, b2, c2) {
      DegenerateCoversNothing(p, a2, b2, c2);
      assert false;
    }
    var l := ToBarycentric(p, a2, b2, c2);
    BarycentricReconstructs(p, a2, b2, c2);
    AxisCovers(l, a2.x, b2.x, c2.x, x, width);
    AxisCovers(l, a2.y, b2.y, c2.y, y, height);
  }

  /**
   * Perspective correction: divide each screen weight by its vertex's clip w,
   * then renormalise so that the weights sum to one again.
   */
  function PerspectiveWeights(s: Vec3, aw: real, bw: real, cw: real): (g: Vec3)
    requires NonNegative(s) && s.x + s.y + s.z == 1.0
    requires aw > 0.0 && bw > 0.0 && cw > 0.0
    ensures NonNegative(g) && g.x + g.y + g.z == 1.0
    ensures g.x * (s.y / bw) == g.y * (s.x / aw) && g.y * (s.z / cw) == g.z * (s.y / bw)
    ensures g.x * (s.z / cw) == g.z * (s.x / aw)
  {
    var h := Vec3(s.x / aw, s.y / bw, s.z / cw);
    PositiveQuotientSum(s, aw, bw, cw);
    var sum := h.x + h.y + h.z;
    DivSwap(h.x, h.y, sum);
    DivSwap(h.y, h.z, sum);
    DivSwap(h.x, h.z, sum);
    Vec3(h.x / sum, h.y / sum, h.z / sum)
  }

  /** Each side divided by the same total keeps the cross products equal. */
  lemma DivSwap(p: real, q: real, t: real)
    requires t != 0.0
    ensures (p / t) * q == (q / t) * p
  {
    assert (p / t) * q == (p * q) / t;
    assert (q / t) * p == (q * p) / t;
  }

  lemma PositiveQuotientSum(s: Vec3, aw: real, bw: real, cw: real)
    requires NonNegative(s) && s.x + s.y + s.z == 1.0
    requires aw > 0.0 && bw > 0.0 && cw > 0.0
    ensures s.x / aw >= 0.0 && s.y / bw >= 0.0 && s.z / cw >= 0.0
    ensures s.x / aw + s.y / bw + s.z / cw > 0.0
  {
    DivNonNegative(s.x, aw);
    DivNonNegative(s.y, bw);
    DivNonNegative(s.z, cw);
    if s.x > 0.0 { DivPositive(s.x, aw); }
    else if s.y > 0.0 { DivPositive(s.y, bw); }
    else { DivPositive(s.z, cw); }
  }

  /** When all three vertices share one w (an affine view) the correction changes nothing. */
  lemma PerspectiveWeightsAffine(s: Vec3, w: real)
    requires NonNegative(s) && s.x + s.y + s.z == 1.0 && w > 0.0
    ensures PerspectiveWeights(s, w, w, w) == s
  {
    var sum := s.x / w + s.y / w + s.z / w;
    assert sum == 1.0 / w;
    assert (s.x / w) / sum == s.x;
    assert (s.y / w) / sum == s.y;
    assert (s.z / w) / sum == s.z;
  }

  /** What the rasterizer computes at one pixel the inside test accepts. */
  datatype PixelSample = PixelSample(depth: real, weights: Vec3)

  /** The pixel (x, y) against clip-space vertices a, b, c: `None` when the inside test rejects it. */
  function Sample(a: Vec4, b: Vec4, c: Vec4, x: int, y: int): (r: Option<PixelSample>)
    requires a.w > 0.0 && b.w > 0.0 && c.w > 0.0
    ensures r.Some? <==> NonNegative(ToBarycentric(Vec2(x as real, y as real), ScreenPoint(a), ScreenPoint(b), ScreenPoint(c)))
    ensures r.Some? ==> NonNegative(r.value.weights) && r.value.weights.x + r.value.weights.y + r.value.weights.z == 1.0
    ensures r.Some? ==> r.value.depth == Blend(r.value.weights, a.z, b.z, c.z)
    ensures r.Some? ==>
      var s := ToBarycentric(Vec2(x as real, y as real), ScreenPoint(a), ScreenPoint(b), ScreenPoint(c));
      Convex(s) && r.value.weights == PerspectiveWeights(s, a.w, b.w, c.w)
  {
    var s := ToBarycentric(Vec2(x as real, y as real), ScreenPoint(a), ScreenPoint(b), ScreenPoint(c));
    if s.x < 0.0 || s.y < 0.0 || s.z < 0.0 then None
    else
      var g := PerspectiveWeights(s, a.w, b.w, c.w);
      Some(PixelSample(Blend(g, a.z, b.z, c.z), g))
  }

  /** For a proper screen triangle, a pixel is sampled exactly when it is a convex combination of the corners. */
  lemma SampleIffInside(a: Vec4, b: Vec4, c: Vec4, x: int, y: int)
    requires a.w > 0.0 && b.w > 0.0 && c.w > 0.0
    requires !Degenerate(ScreenPoint(a), ScreenPoint(b), ScreenPoint(c))
    ensures Sample(a, b, c, x, y).Some? <==>
      exists l: Vec3 :: NonNegative(l) && l.x + l.y + l.z == 1.0 &&
        Combine(l, ScreenPoint(a), ScreenPoint(b), ScreenPoint(c)) == Vec2(x as real, y as real)
  {
    InsideIffConvexCombination(Vec2(x as real, y as real), ScreenPoint(a), ScreenPoint(b), ScreenPoint(c));
  }

  /** No pixel outside the bounding box passes the inside test. */
  lemma OutsideBoxNotSampled(a: Vec4, b: Vec4, c: Vec4, width: u32, height: u32, x: nat, y: nat)
    requires a.w > 0.0 && b.w > 0.0 && c.w > 0.0
    requires width >= 1 && height >= 1 && x < width && y < height
    requires !BoundingBox(ScreenPoint(a), ScreenPoint(b), ScreenPoint(c), width, height).Contains(x, y)
    ensures Sample(a, b, c, x, y).None?
  {
    if Sample(a, b, c, x, y).Some? {
      BoxCovers(ScreenPoint(a), ScreenPoint(b), ScreenPoint(c), width, height, x, y);
      assert false;
    }
  }

  /**
   * A triangle wholly left of (or above) the image passes the inside test at
   * no pixel of the image: every convex combination of its corners has a
   * negative coordinate.
   */
  lemma BeforeImageNotSampled(a: Vec4, b: Vec4, c: Vec4, x: nat, y: nat)
    requires a.w > 0.0 && b.w > 0.0 && c.w > 0.0
    ensures var a2, b2, c2 := ScreenPoint(a), ScreenPoint(b), ScreenPoint(c);
      (a2.x < 0.0 && b2.x < 0.0 && c2.x < 0.0) || (a2.y < 0.0 && b2.y < 0.0 && c2.y < 0.0) ==>
        Sample(a, b, c, x, y).None?
  {
    var a2, b2, c2 := ScreenPoint(a), ScreenPoint(b), ScreenPoint(c);
    var p := Vec2(x as real, y as real);
    if Sample(a, b, c, x, y).Some? {
      var s := ToBarycentric(p, a2, b2, c2);
      if Degenerate(a2, b2, c2) {
        DegenerateCoversNothing(p, a2, b2, c2);
      } else {
        BarycentricReconstructs(p, a2, b2, c2);
        ConvexBetween(s, a2.x, b2.x, c2.x);
        ConvexBetween(s, a2.y, b2.y, c2.y);
        assert Blend(s, a2.x, b2.x, c2.x) == x as real && Blend(s, a2.y, b2.y, c2.y) == y as real;
      }
    }
  }

  /** A triangle that collapses on screen is never sampled. */
  lemma DegenerateSamplesNothing(a: Vec4, b: Vec4, c: Vec4, x: int, y: int)
    requires a.w > 0.0 && b.w > 0.0 && c.w > 0.0
    requires Degenerate(ScreenPoint(a), ScreenPoint(b), ScreenPoint(c))
    ensures Sample(a, b, c, x, y).None?
  {
    DegenerateCoversNothing(Vec2(x as real, y as real), ScreenPoint(a), ScreenPoint(b), ScreenPoint(c));
  }

  /** The interpolated depth stays within any range holding the three vertex depths. */
  lemma SampleDepthWithin(a: Vec4, b: Vec4, c: Vec4, x: int, y: int, lo: real, hi: real)
    requires a.w > 0.0 && b.w > 0.0 && c.w > 0.0
    requires lo <= a.z <= hi && lo <= b.z <= hi && lo <= c.z <= hi
    requires Sample(a, b, c, x, y).Some?
    ensures lo <= Sample(a, b, c, x, y).value.depth <= hi
  {
    ConvexBetween(Sample(a, b, c, x, y).value.weights, a.z, b.z, c.z);
  }

  /** A pixel centre on the first screen vertex gets that vertex's depth and all of its weight. */
  lemma SampleAtFirstVertex(a: Vec4, b: Vec4, c: Vec4, x: int, y: int)
    requires a.w > 0.0 && b.w > 0.0 && c.w > 0.0
    requires !Degenerate(ScreenPoint(a), ScreenPoint(b), ScreenPoint(c))
    requires ScreenPoint(a) == Vec2(x as real, y as real)
    ensures Sample(a, b, c, x, y) == Some(PixelSample(a.z, Vec3(1.0, 0.0, 0.0)))
  {
    BarycentricAtCorners(ScreenPoint(a), ScreenPoint(b), ScreenPoint(c));
    var g := PerspectiveWeights(Vec3(1.0, 0.0, 0.0), a.w, b.w, c.w);
    assert (1.0 / a.w) / (1.0 / a.w + 0.0 / b.w + 0.0 / c.w) == 1.0;
    assert g == Vec3(1.0, 0.0, 0.0);
  }

  /**
   * One pixel under one triangle, given what the inside test produced there and
   * what the fragment stage answers for it: the new depth and colour, or `None`
   * where the fragment stage panics. Only a strictly nearer (greater) depth
   * passes the depth test.
   */
  function Update(sample: Option<PixelSample>, shaded: Option<(Rgb, bool)>, depth: real, color: Rgb): (r: Option<(real, Rgb)>)
    ensures r.None? <==> sample.Some? && depth < sample.value.depth && shaded.None?
    ensures r.Some? ==> depth <= r.value.0
    ensures r.Some? && sample.Some? ==> sample.value.depth <= r.value.0
    ensures r.Some? && r.value.0 == depth ==> r.value.1 == color
    ensures sample.None? ==> r == Some((depth, color))
    ensures r.Some? ==> r.value.0 == depth || (sample.Some? && r.value.0 == sample.value.depth)
    ensures r.Some? && sample.Some? && depth < sample.value.depth ==>
      shaded.Some? && r.value == (sample.value.depth, shaded.value.0)
  {
    match sample
    case None => Some((depth, color))
    case Some(f) =>
      if depth >= f.depth then Some((depth, color))
      else match shaded
        case None => None
        case Some(out) => Some((f.depth, out.0))
  }

  /** What the rasterizer does to pixel (x, y) with the shader in its current state. */
  function RasterCell(shader: Shader, a: Vec4, b: Vec4, c: Vec4, x: int, y: int, depth: real, color: Rgb): Option<(real, Rgb)>
    reads shader.Repr()
    requires shader.Valid() && a.w > 0.0 && b.w > 0.0 && c.w > 0.0
  {
    var s := Sample(a, b, c, x, y);
    Update(s, if s.Some? then shader.Fragment((x, y, s.value.depth), s.value.weights, White) else None, depth, color)
  }

  /** The rasterizer leaves every cell outside the bounding box as it was. */
  lemma OutsideBoxUntouched(shader: Shader, a: Vec4, b: Vec4, c: Vec4, width: u32, height: u32, i: nat, depth: real, color: Rgb)
    requires shader.Valid() && a.w > 0.0 && b.w > 0.0 && c.w > 0.0
    requires width >= 1 && height >= 1 && i < width as int * height as int
    requires !BoundingBox(ScreenPoint(a), ScreenPoint(b), ScreenPoint(c), width, height).Contains(i % width as int, i / width as int)
    ensures RasterCell(shader, a, b, c, i % width as int, i / width as int, depth, color) == Some((depth, color))
  {
    CellCoords(i, width as int, height as int);
    var x, y := i % width as int, i / width as int;
    assert 0 <= x < width as int;
    assert 0 <= y < height as int;
    assert !BoundingBox(ScreenPoint(a), ScreenPoint(b), ScreenPoint(c), width, height).Contains(x, y);
    OutsideBoxNotSampled(a, b, c, width, height, x, y);
  }

  /** The cells the scan has passed when it stands at column x, row y. */
  ghost predicate Visited(box: Box, x: int, y: int, cx: int, cy: int) {
    box.Contains(cx, cy) && (cx < x || (cx == x && cy < y))
  }

  /**
   * The scan invariant, over the outcome the cell rule prescribes for every
   * cell: each cell already passed holds its outcome, and every other cell
   * still holds its starting depth and colour.
   */
  ghost predicate Scanned(box: Box, x: int, y: int, width: nat, outcomes: seq<Option<(real, Rgb)>>,
                          depths0: seq<real>, pixels0: seq<Rgb>, depths: seq<real>, pixels: seq<Rgb>)
    requires width > 0
  {
    && |outcomes| == |depths0| == |pixels0| == |depths| == |pixels|
    && forall i | 0 <= i < |depths0| ::
         if Visited(box, x, y, i % width, i / width)
         then outcomes[i] == Some((depths[i], pixels[i]))
         else depths[i] == depths0[i] && pixels[i] == pixels0[i]
  }

  /** The cell the scan stands on has not been touched yet. */
  lemma ScanUnvisited(box: Box, x: nat, y: nat, width: nat, height: nat, outcomes: seq<Option<(real, Rgb)>>,
                      depths0: seq<real>, pixels0: seq<Rgb>, depths: seq<real>, pixels: seq<Rgb>)
    requires x < width && y < height && |depths0| == width * height
    requires Scanned(box, x, y, width, outcomes, depths0, pixels0, depths, pixels)
    ensures PixelIndex(x, y, width) < |depths0|
    ensures depths[PixelIndex(x, y, width)] == depths0[PixelIndex(x, y, width)]
    ensures pixels[PixelIndex(x, y, width)] == pixels0[PixelIndex(x, y, width)]
  {
    PixelIndexInBounds(x, y, width, height);
    PixelIndexCoords(x, y, width);
  }

  /** Settling the current cell at its outcome advances the scan by one row. */
  lemma ScanStep(box: Box, x: nat, y: nat, width: nat, height: nat, outcomes: seq<Option<(real, Rgb)>>,
                 depths0: seq<real>, pixels0: seq<Rgb>, depths: seq<real>, pixels: seq<Rgb>, depth: real, color: Rgb)
    requires x < width && y < height && |depths0| == width * height && box.Contains(x, y)
    requires Scanned(box, x, y, width, outcomes, depths0, pixels0, depths, pixels)
    requires PixelIndex(x, y, width) < |depths0| && outcomes[PixelIndex(x, y, width)] == Some((depth, color))
    ensures Scanned(box, x, y + 1, width, outcomes, depths0, pixels0,
                    depths[PixelIndex(x, y, width) := depth], pixels[PixelIndex(x, y, width) := color])
  {
    PixelIndexCoords(x, y, width);
    CellOf(x, y, width, height);
  }

  /** A finished column moves the scan to the top of the next one. */
  lemma ScanNextColumn(box: Box, x: int, y: int, width: nat, outcomes: seq<Option<(real, Rgb)>>,
                       depths0: seq<real>, pixels0: seq<Rgb>, depths: seq<real>, pixels: seq<Rgb>)
    requires width > 0 && y > box.maxY
    requires Scanned(box, x, y, width, outcomes, depths0, pixels0, depths, pixels)
    ensures Scanned(box, x + 1, box.minY, width, outcomes, depths0, pixels0, depths, pixels)
  {
  }

  /** Past the last column every cell holds its outcome, given that cells outside the box keep their state. */
  lemma ScanFinished(box: Box, x: int, width: nat, height: nat, outcomes: seq<Option<(real, Rgb)>>,
                     depths0: seq<real>, pixels0: seq<Rgb>, depths: seq<real>, pixels: seq<Rgb>)
    requires |depths0| == width * height && x > box.maxX
    requires width > 0 && Scanned(box, x, box.minY, width, outcomes, depths0, pixels0, depths, pixels)
    requires forall i | 0 <= i < |depths0| && !box.Contains(i % width, i / width) ::
      outcomes[i] == Some((depths0[i], pixels0[i]))
    ensures forall i | 0 <= i < |depths0| :: outcomes[i] == Some((depths[i], pixels[i]))
  {
    forall i | 0 <= i < |depths0|
      ensures outcomes[i] == Some((depths[i], pixels[i]))
    {
      var cx, cy := i % width, i / width;
      if box.Contains(cx, cy) {
        assert Visited(box, x, box.minY, cx, cy);
      } else {
        assert !Visited(box, x, box.minY, cx, cy);
      }
    }
  }

  /**
   * The body of the scan at pixel (x, y): the inside test, the depth test
   * against the z-buffer, then the depth write, the fragment stage on a white
   * starting colour, and the pixel write. `ok` is false where the fragment
   * stage panics. Only the cell of (x, y) changes.
   */
  method ShadePixel(image: Image, a: Vec4, b: Vec4, c: Vec4, shader: Shader, zBuffer: array<real>, x: nat, y: nat)
    returns (ok: bool)
    requires image.Valid() && shader.Valid() && x < image.width && y < image.height
    requires zBuffer.Length == image.width as int * image.height as int
    requires a.w > 0.0 && b.w > 0.0 && c.w > 0.0
    modifies image.pixels, zBuffer
    ensures image.Valid() && PixelIndex(x, y, image.width as int) < zBuffer.Length
    ensures ok <==> RasterCell(shader, a, b, c, x, y, old(zBuffer[PixelIndex(x, y, image.width as int)]),
                               old(image.pixels[PixelIndex(x, y, image.width as int)])).Some?
    ensures ok ==>
      var k := PixelIndex(x, y, image.width as int);
      var r := RasterCell(shader, a, b, c, x, y, old(zBuffer[k]), old(image.pixels[k])).value;
      zBuffer[..] == old(zBuffer[..])[k := r.0] && image.pixels[..] == old(image.pixels[..])[k := r.1]
  {
    var k := PixelIndex(x, y, image.width as int);
    PixelIndexInBounds(x, y, image.width as int, image.height as int);
    var sample := Sample(a, b, c, x, y);
    if sample.Some? && zBuffer[k] < sample.value.depth {
      var f := sample.value;
      zBuffer[k] := f.depth;
      var shaded := shader.Fragment((x, y, f.depth), f.weights, White);
      if shaded.None? {
        return false;
      }
      image.PutPixel(x, y, shaded.value.0);
    }
    return true;
  }

  /** `outcomes` lists, cell by cell, what RasterCell prescribes from the starting depths and colours. */
  ghost predicate Prescribed(shader: Shader, a: Vec4, b: Vec4, c: Vec4, width: nat,
                             depths0: seq<real>, pixels0: seq<Rgb>, outcomes: seq<Option<(real, Rgb)>>)
    reads shader.Repr()
    requires shader.Valid() && a.w > 0.0 && b.w > 0.0 && c.w > 0.0 && width > 0
  {
    && |outcomes| == |depths0| == |pixels0|
    && forall i | 0 <= i < |outcomes| ::
         outcomes[i] == RasterCell(shader, a, b, c, i % width, i / width, depths0[i], pixels0[i])
  }

  /** The prescribed outcome of every cell. */
  ghost function Outcomes(shader: Shader, a: Vec4, b: Vec4, c: Vec4, width: nat, depths0: seq<real>, pixels0: seq<Rgb>)
    : (outcomes: seq<Option<(real, Rgb)>>)
    reads shader.Repr()
    requires shader.Valid() && a.w > 0.0 && b.w > 0.0 && c.w > 0.0 && width > 0 && |depths0| == |pixels0|
    ensures Prescribed(shader, a, b, c, width, depths0, pixels0, outcomes)
  {
    seq(|depths0|, i requires 0 <= i < |depths0| reads shader.Repr() =>
      if shader.Valid() then RasterCell(shader, a, b, c, i % width, i / width, depths0[i], pixels0[i]) else None)
  }

  /**
   * Once the scan has passed the whole box every cell holds its prescribed
   * outcome: inside the box by the scan, outside it because the rule leaves it alone.
   */
  lemma ScanComplete(shader: Shader, a: Vec4, b: Vec4, c: Vec4, x: int, width: u32, height: u32,
                     depths0: seq<real>, pixels0: seq<Rgb>, outcomes: seq<Option<(real, Rgb)>>, depths: seq<real>, pixels: seq<Rgb>)
    requires shader.Valid() && a.w > 0.0 && b.w > 0.0 && c.w > 0.0 && width >= 1 && height >= 1
    requires |depths0| == width as int * height as int
    requires Prescribed(shader, a, b, c, width as int, depths0, pixels0, outcomes)
    requires x > BoundingBox(ScreenPoint(a), ScreenPoint(b), ScreenPoint(c), width, height).maxX
    requires Scanned(BoundingBox(ScreenPoint(a), ScreenPoint(b), ScreenPoint(c), width, height),
                     x, BoundingBox(ScreenPoint(a), ScreenPoint(b), ScreenPoint(c), width, height).minY,
                     width as int, outcomes, depths0, pixels0, depths, pixels)
    ensures |depths| == |pixels| == |depths0|
    ensures forall i | 0 <= i < |depths0| ::
      RasterCell(shader, a, b, c, i % width as int, i / width as int, depths0[i], pixels0[i]) == Some((depths[i], pixels[i]))
  {
    var box := BoundingBox(ScreenPoint(a), ScreenPoint(b), ScreenPoint(c), width, height);
    forall i | 0 <= i < |depths0| && !box.Contains(i % width as int, i / width as int)
      ensures outcomes[i] == Some((depths0[i], pixels0[i]))
    {
      OutsideBoxUntouched(shader, a, b, c, width, height, i, depths0[i], pixels0[i]);
    }
    ScanFinished(box, x, width as int, height as int, outcomes, depths0, pixels0, depths, pixels);
  }

  /** The inner loop of the scan: column x of the box, top to bottom. */
  method ScanColumn(image: Image, a: Vec4, b: Vec4, c: Vec4, shader: Shader, zBuffer: array<real>, box: Box, x: nat,
                    ghost depths0: seq<real>, ghost pixels0: seq<Rgb>, ghost outcomes: seq<Option<(real, Rgb)>>)
    returns (ok: bool)
    requires image.Valid() && shader.Valid() && a.w > 0.0 && b.w > 0.0 && c.w > 0.0
    requires zBuffer.Length == image.width as int * image.height as int
    requires x < image.width && 0 <= box.minY && box.maxY < image.height
    requires Prescribed(shader, a, b, c, image.width as int, depths0, pixels0, outcomes)
    requires Scanned(box, x, box.minY, image.width as int, outcomes, depths0, pixels0, zBuffer[..], image.pixels[..])
    requires box.minX <= x <= box.maxX
    modifies image.pixels, zBuffer
    ensures image.Valid()
    ensures ok ==> Scanned(box, x + 1, box.minY, image.width as int, outcomes, depths0, pixels0, zBuffer[..], image.pixels[..])
    ensures !ok ==> exists i | 0 <= i < |outcomes| :: outcomes[i].None?
  {
    var width, height := image.width as int, image.height as int;
    var y := box.minY;
    while y <= box.maxY
      invariant box.minY <= y && (y <= box.maxY + 1 || y == box.minY)
      invariant image.Valid()
      invariant Scanned(box, x, y, width, outcomes, depths0, pixels0, zBuffer[..], image.pixels[..])
    {
      ghost var depths, pixels := zBuffer[..], image.pixels[..];
      ghost var k := PixelIndex(x, y, width);
      ScanUnvisited(box, x, y, width, height, outcomes, depths0, pixels0, depths, pixels);
      PixelIndexCoords(x, y, width);
      assert outcomes[k] == RasterCell(shader, a, b, c, x, y, depths[k], pixels[k]);
      ok := ShadePixel(image, a, b, c, shader, zBuffer, x, y);
      if !ok {
        return;
      }
      ScanStep(box, x, y, width, height, outcomes, depths0, pixels0, depths, pixels, outcomes[k].value.0, outcomes[k].value.1);
      y := y + 1;
    }
    ScanNextColumn(box, x, y, width, outcomes, depths0, pixels0, zBuffer[..], image.pixels[..]);
    return true;
  }

  /**
   * `triangle_rasterize`. `ok` is false when the fragment stage panics at a
   * pixel that passed the depth test; the state is then left as it stood.
   * Otherwise every pixel of the image, inside the box or not, holds what
   * RasterCell prescribes from its old depth and colour.
   */
  method TriangleRasterize(image: Image, a: Vec4, b: Vec4, c: Vec4, shader: Shader, zBuffer: array<real>) returns (ok: bool)
    requires image.Valid() && shader.Valid()
    requires image.width >= 1 && image.height >= 1
    requires zBuffer.Length == image.width as int * image.height as int
    requires a.w > 0.0 && b.w > 0.0 && c.w > 0.0
    modifies image.pixels, zBuffer
    ensures image.Valid()
    ensures ok <==> forall i | 0 <= i < zBuffer.Length ::
      RasterCell(shader, a, b, c, i % image.width as int, i / image.width as int, old(zBuffer[i]), old(image.pixels[i])).Some?
    ensures ok ==> forall i | 0 <= i < zBuffer.Length ::
      RasterCell(shader, a, b, c, i % image.width as int, i / image.width as int, old(zBuffer[i]), old(image.pixels[i]))
        == Some((zBuffer[i], image.pixels[i]))
  {
    ghost var depths0 := zBuffer[..];
    ghost var pixels0 := image.pixels[..];
    var width, height := image.width as int, image.height as int;
    ghost var outcomes := Outcomes(shader, a, b, c, width, depths0, pixels0);
    var box := BoundingBox(ScreenPoint(a), ScreenPoint(b), ScreenPoint(c), image.width, image.height);
    var x := box.minX;
    while x <= box.maxX
      invariant box.minX <= x && (x <= box.maxX + 1 || x == box.minX)
      invariant image.Valid()
      invariant Scanned(box, x, box.minY, width, outcomes, depths0, pixels0, zBuffer[..], image.pixels[..])
    {
      ok := ScanColumn(image, a, b, c, shader, zBuffer, box, x, depths0, pixels0, outcomes);
      if !ok {
        return;
      }
      x := x + 1;
    }
    ScanComplete(shader, a, b, c, x, image.width, image.height, depths0, pixels0, outcomes, zBuffer[..], image.pixels[..]);
    return true;
  }

  /** The three clip-space vertices a configuration gives `triangle` lie in front of the eye. */
  predicate ClipPositive(u: Uniforms, triangle: TriangleInfo) {
    u.Clip(triangle, 0).w > 0.0 && u.Clip(triangle, 1).w > 0.0 && u.Clip(triangle, 2).w > 0.0
  }

  predicate AllInFront(u: Uniforms, model: seq<TriangleInfo>) {
    forall j | 0 <= j < |model| :: ClipPositive(u, model[j])
  }

  /** The inside test and depth of `triangle` at pixel (x, y) under configuration `u`. */
  function SampleOf(u: Uniforms, triangle: TriangleInfo, x: int, y: int): Option<PixelSample>
    requires ClipPositive(u, triangle)
  {
    Sample(u.Clip(triangle, 0), u.Clip(triangle, 1), u.Clip(triangle, 2), x, y)
  }

  /** What one triangle does to pixel (x, y), determined by the shader's configuration and the triangle alone. */
  function TriangleCell(u: Uniforms, triangle: TriangleInfo, x: int, y: int, depth: real, color: Rgb): Option<(real, Rgb)>
    requires u.Valid() && ClipPositive(u, triangle)
  {
    var s := SampleOf(u, triangle, x, y);
    Update(s, if s.Some? then u.Shade(triangle, (x, y, s.value.depth), s.value.weights, White) else None, depth, color)
  }

  /** Once the vertex stage has run for `triangle`, rasterizing it with the shader is TriangleCell. */
  lemma PreparedCell(shader: Shader, triangle: TriangleInfo, x: int, y: int, depth: real, color: Rgb)
    requires shader.Valid() && shader.PreparedFor(triangle) && ClipPositive(shader.GetUniforms(), triangle)
    ensures var u := shader.GetUniforms();
      RasterCell(shader, u.Clip(triangle, 0), u.Clip(triangle, 1), u.Clip(triangle, 2), x, y, depth, color)
        == TriangleCell(u, triangle, x, y, depth, color)
  {
    var s := SampleOf(shader.GetUniforms(), triangle, x, y);
    if s.Some? {
      shader.PreparedFragment(triangle, (x, y, s.value.depth), s.value.weights, White);
    }
  }

  /**
   * Pixel (x, y), starting at `depth` and `color`, after the triangles of
   * `model` in order; `None` once one of them panics there.
   */
  function History(u: Uniforms, model: seq<TriangleInfo>, x: int, y: int, depth: real, color: Rgb): Option<(real, Rgb)>
    requires u.Valid() && AllInFront(u, model)
    decreases |model|
  {
    if model == [] then Some((depth, color))
    else
      match History(u, model[..|model| - 1], x, y, depth, color)
      case None => None
      case Some(cell) => TriangleCell(u, model[|model| - 1], x, y, cell.0, cell.1)
  }

  /** A panic at a pixel ends that pixel's history: no later triangle revives it. */
  lemma {:induction false} HistoryNonePersists(u: Uniforms, model: seq<TriangleInfo>, k: nat, x: int, y: int, depth: real, color: Rgb)
    requires u.Valid() && AllInFront(u, model) && k <= |model|
    requires History(u, model[..k], x, y, depth, color).None?
    ensures History(u, model, x, y, depth, color).None?
    decreases |model|
  {
    if k < |model| {
      var init := model[..|model| - 1];
      assert init[..k] == model[..k];
      HistoryNonePersists(u, init, k, x, y, depth, color);
    } else {
      assert model[..k] == model;
    }
  }

  /**
   * The depth a pixel ends with is the greatest of its starting depth and the
   * depths of the triangles covering it: at least each of them, and equal to one.
   */
  lemma HistoryDepthIsMax(u: Uniforms, model: seq<TriangleInfo>, x: int, y: int, depth: real, color: Rgb)
    requires u.Valid() && AllInFront(u, model)
    requires History(u, model, x, y, depth, color).Some?
    ensures var d := History(u, model, x, y, depth, color).value.0;
      && depth <= d
      && (forall j | 0 <= j < |model| && SampleOf(u, model[j], x, y).Some? :: SampleOf(u, model[j], x, y).value.depth <= d)
      && (d == depth || exists j | 0 <= j < |model| :: SampleOf(u, model[j], x, y).Some? && SampleOf(u, model[j], x, y).value.depth == d)
  {
    HistoryDepthAbove(u, model, x, y, depth, color);
    HistoryDepthAttained(u, model, x, y, depth, color);
  }

  /** The final depth is at least the starting depth and every covering triangle's depth. */
  lemma {:induction false} HistoryDepthAbove(u: Uniforms, model: seq<TriangleInfo>, x: int, y: int, depth: real, color: Rgb)
    requires u.Valid() && AllInFront(u, model)
    requires History(u, model, x, y, depth, color).Some?
    ensures var d := History(u, model, x, y, depth, color).value.0;
      && depth <= d
      && (forall j | 0 <= j < |model| && SampleOf(u, model[j], x, y).Some? :: SampleOf(u, model[j], x, y).value.depth <= d)
    decreases |model|
  {
    if model != [] {
      var n := |model| - 1;
      var init := model[..n];
      HistoryDepthAbove(u, init, x, y, depth, color);
      assert forall j | 0 <= j < n :: init[j] == model[j];
    }
  }

  /** The final depth is the starting depth or the depth of some covering triangle. */
  lemma {:induction false} HistoryDepthAttained(u: Uniforms, model: seq<TriangleInfo>, x: int, y: int, depth: real, color: Rgb)
    requires u.Valid() && AllInFront(u, model)
    requires History(u, model, x, y, depth, color).Some?
    ensures var d := History(u, model, x, y, depth, color).value.0;
      d == depth || exists j | 0 <= j < |model| :: SampleOf(u, model[j], x, y).Some? && SampleOf(u, model[j], x, y).value.depth == d
    decreases |model|
  {
    if model != [] {
      var n := |model| - 1;
      var init := model[..n];
      HistoryDepthAttained(u, init, x, y, depth, color);
      var d := History(u, model, x, y, depth, color).value.0;
      var prev := History(u, init, x, y, depth, color).value.0;
      assert forall j | 0 <= j < n :: init[j] == model[j];
      if d != depth && d != prev {
        assert SampleOf(u, model[n], x, y).Some? && SampleOf(u, model[n], x, y).value.depth == d;
      }
    }
  }

  /** A pixel whose depth ends where it started keeps its colour: every colour write raises the depth. */
  lemma {:induction false} HistoryKeepsColor(u: Uniforms, model: seq<TriangleInfo>, x: int, y: int, depth: real, color: Rgb)
    requires u.Valid() && AllInFront(u, model)
    requires History(u, model, x, y, depth, color).Some?
    requires History(u, model, x, y, depth, color).value.0 == depth
    ensures History(u, model, x, y, depth, color).value.1 == color
    decreases |model|
  {
    if model != [] {
      var init := model[..|model| - 1];
      HistoryDepthIsMax(u, init, x, y, depth, color);
      HistoryKeepsColor(u, init, x, y, depth, color);
    }
  }

  /**
   * A pixel whose depth rose shows the colour the fragment stage gave, on a
   * white start, to a triangle covering it at exactly that depth.
   */
  lemma {:induction false} HistoryLastWriter(u: Uniforms, model: seq<TriangleInfo>, x: int, y: int, depth: real, color: Rgb)
    requires u.Valid() && AllInFront(u, model)
    requires History(u, model, x, y, depth, color).Some?
    requires History(u, model, x, y, depth, color).value.0 > depth
    ensures var cell := History(u, model, x, y, depth, color).value;
      exists j | 0 <= j < |model| ::
        var s := SampleOf(u, model[j], x, y);
        && s.Some? && s.value.depth == cell.0
        && u.Shade(model[j], (x, y, cell.0), s.value.weights, White).Some?
        && u.Shade(model[j], (x, y, cell.0), s.value.weights, White).value.0 == cell.1
    decreases |model|
  {
    var n := |model| - 1;
    var init := model[..n];
    var prev := History(u, init, x, y, depth, color).value;
    var cell := History(u, model, x, y, depth, color).value;
    if cell.0 == prev.0 {
      assert cell == prev;
      HistoryLastWriter(u, init, x, y, depth, color);
      var j :| 0 <= j < |init| && var s := SampleOf(u, init[j], x, y);
        && s.Some? && s.value.depth == prev.0
        && u.Shade(init[j], (x, y, prev.0), s.value.weights, White).Some?
        && u.Shade(init[j], (x, y, prev.0), s.value.weights, White).value.0 == prev.1;
      assert init[j] == model[j];
    } else {
      assert SampleOf(u, model[n], x, y).Some?;
    }
  }

  /** A pixel that no triangle of the model covers keeps its depth and colour. */
  lemma {:induction false} HistoryUncovered(u: Uniforms, model: seq<TriangleInfo>, x: int, y: int, depth: real, color: Rgb)
    requires u.Valid() && AllInFront(u, model)
    requires forall j | 0 <= j < |model| :: SampleOf(u, model[j], x, y).None?
    ensures History(u, model, x, y, depth, color) == Some((depth, color))
    decreases |model|
  {
    if model != [] {
      var init := model[..|model| - 1];
      assert forall j | 0 <= j < |init| :: init[j] == model[j];
      HistoryUncovered(u, init, x, y, depth, color);
    }
  }

  /** Every cell holds the depth and colour its history over `model` prescribes. */
  ghost predicate Rendered(u: Uniforms, model: seq<TriangleInfo>, width: nat, depths0: seq<real>, pixels0: seq<Rgb>,
                           depths: seq<real>, pixels: seq<Rgb>)
    requires u.Valid() && AllInFront(u, model) && width > 0
  {
    && |depths0| == |pixels0| == |depths| == |pixels|
    && forall i | 0 <= i < |depths0| ::
         History(u, model, i % width, i / width, depths0[i], pixels0[i]) == Some((depths[i], pixels[i]))
  }

  /** Rasterizing triangle k extends, cell by cell, the histories of the triangles before it. */
  lemma RenderStep(shader: Shader, model: seq<TriangleInfo>, k: nat, width: nat, depths0: seq<real>, pixels0: seq<Rgb>,
                   depths: seq<real>, pixels: seq<Rgb>, depths': seq<real>, pixels': seq<Rgb>)
    requires shader.Valid() && AllInFront(shader.GetUniforms(), model) && k < |model| && width > 0
    requires shader.PreparedFor(model[k])
    requires Rendered(shader.GetUniforms(), model[..k], width, depths0, pixels0, depths, pixels)
    requires |depths'| == |pixels'| == |depths0|
    requires var u := shader.GetUniforms();
      forall i | 0 <= i < |depths0| ::
        RasterCell(shader, u.Clip(model[k], 0), u.Clip(model[k], 1), u.Clip(model[k], 2), i % width, i / width, depths[i], pixels[i])
          == Some((depths'[i], pixels'[i]))
    ensures Rendered(shader.GetUniforms(), model[..k + 1], width, depths0, pixels0, depths', pixels')
  {
    var u := shader.GetUniforms();
    assert model[..k + 1][..k] == model[..k];
    forall i | 0 <= i < |depths0|
      ensures History(u, model[..k + 1], i % width, i / width, depths0[i], pixels0[i]) == Some((depths'[i], pixels'[i]))
    {
      PreparedCell(shader, model[k], i % width, i / width, depths[i], pixels[i]);
    }
  }

  /** A panic while rasterizing triangle k is a panic in the history of that pixel. */
  lemma RenderPanic(shader: Shader, model: seq<TriangleInfo>, k: nat, width: nat, depths0: seq<real>, pixels0: seq<Rgb>,
                    depths: seq<real>, pixels: seq<Rgb>)
    requires shader.Valid() && AllInFront(shader.GetUniforms(), model) && k < |model| && width > 0
    requires shader.PreparedFor(model[k])
    requires Rendered(shader.GetUniforms(), model[..k], width, depths0, pixels0, depths, pixels)
    requires var u := shader.GetUniforms();
      exists i | 0 <= i < |depths0| ::
        RasterCell(shader, u.Clip(model[k], 0), u.Clip(model[k], 1), u.Clip(model[k], 2), i % width, i / width, depths[i], pixels[i]).None?
    ensures exists i | 0 <= i < |depths0| ::
      History(shader.GetUniforms(), model, i % width, i / width, depths0[i], pixels0[i]).None?
  {
    var u := shader.GetUniforms();
    var i :| 0 <= i < |depths0| &&
      RasterCell(shader, u.Clip(model[k], 0), u.Clip(model[k], 1), u.Clip(model[k], 2), i % width, i / width, depths[i], pixels[i]).None?;
    PreparedCell(shader, model[k], i % width, i / width, depths[i], pixels[i]);
    assert model[..k + 1][..k] == model[..k];
    HistoryNonePersists(u, model, k + 1, i % width, i / width, depths0[i], pixels0[i]);
  }

  /**
   * One pass of the render loop: the vertex stage for vertices 0, 1, 2 of
   * triangle k, then the rasterizer. `ok` is false when that panicked.
   */
  method RenderTriangle(image: Image, model: seq<TriangleInfo>, k: nat, shader: Shader, depths: array<real>,
                        ghost depths0: seq<real>, ghost pixels0: seq<Rgb>)
    returns (ok: bool)
    requires image.Valid() && shader.Valid() && image.width >= 1 && image.height >= 1
    requires depths.Length == image.width as int * image.height as int
    requires AllInFront(shader.GetUniforms(), model) && k < |model|
    requires Rendered(shader.GetUniforms(), model[..k], image.width as int, depths0, pixels0, depths[..], image.pixels[..])
    modifies image.pixels, depths, shader.Repr()
    ensures image.Valid() && shader.Valid() && shader.GetUniforms() == old(shader.GetUniforms())
    ensures ok ==> Rendered(shader.GetUniforms(), model[..k + 1], image.width as int, depths0, pixels0, depths[..], image.pixels[..])
    ensures !ok ==> exists i | 0 <= i < |depths0| ::
      History(shader.GetUniforms(), model, i % image.width as int, i / image.width as int, depths0[i], pixels0[i]).None?
  {
    ghost var u := shader.GetUniforms();
    var a, b, c := VertexStage(shader, model[k]);
    assert ClipPositive(u, model[k]);
    ghost var before, pixels := depths[..], image.pixels[..];
    ok := TriangleRasterize(image, a, b, c, shader, depths);
    if ok {
      RenderStep(shader, model, k, image.width as int, depths0, pixels0, before, pixels, depths[..], image.pixels[..]);
    } else {
      RenderPanic(shader, model, k, image.width as int, depths0, pixels0, before, pixels);
    }
  }

  /**
   * `render`: the triangles in order, on a private copy of the z-buffer.
   * `ok` is false when the fragment stage panicked; otherwise every pixel
   * holds the colour its history prescribes, and the result is a copy of the image.
   */
  method Render(image: Image, model: seq<TriangleInfo>, shader: Shader, zBuffer: seq<real>) returns (ok: bool, result: Raster)
    requires image.Valid() && shader.Valid()
    requires image.width >= 1 && image.height >= 1
    requires |zBuffer| == image.width as int * image.height as int
    requires AllInFront(shader.GetUniforms(), model)
    modifies image.pixels, shader.Repr()
    ensures image.Valid() && shader.Valid() && shader.GetUniforms() == old(shader.GetUniforms())
    ensures ok <==> forall i | 0 <= i < |zBuffer| ::
      History(old(shader.GetUniforms()), model, i % image.width as int, i / image.width as int, zBuffer[i], old(image.pixels[i])).Some?
    ensures ok ==> result == image.Snapshot() && forall i | 0 <= i < |zBuffer| ::
      History(old(shader.GetUniforms()), model, i % image.width as int, i / image.width as int, zBuffer[i], old(image.pixels[i])).value.1
        == image.pixels[i]
    ensures ok && model == [] ==> image.pixels[..] == old(image.pixels[..])
  {
    ghost var u := shader.GetUniforms();
    ghost var pixels0 := image.pixels[..];
    var width := image.width as int;
    var depths := new real[|zBuffer|](i requires 0 <= i < |zBuffer| => zBuffer[i]);
    var k := 0;
    while k < |model|
      invariant 0 <= k <= |model|
      invariant image.Valid() && shader.Valid() && shader.GetUniforms() == u
      invariant Rendered(u, model[..k], width, zBuffer, pixels0, depths[..], image.pixels[..])
    {
      ok := RenderTriangle(image, model, k, shader, depths, zBuffer, pixels0);
      if !ok {
        return false, image.Snapshot();
      }
      k := k + 1;
    }
    assert model[..k] == model;
    return true, image.Snapshot();
  }
}
