/**
 * The untextured flat shader: one Lambert intensity per triangle, from the
 * face normal and a directional light, shading every pixel a grey level.
 */
module FlatShading {
  import opened Linalg
  import opened Casts
  import opened Images
  import opened TriangleData

  /** The unnormalised face normal `(c - a) x (b - a)`: orthogonal to both edges leaving `a`. */
  function FaceNormal(a: Vec3, b: Vec3, c: Vec3): (n: Vec3)
    ensures Dot3(n, Sub3(c, a)) == 0.0 && Dot3(n, Sub3(b, a)) == 0.0
  {
    CrossOrthogonal(Sub3(c, a), Sub3(b, a));
    Cross(Sub3(c, a), Sub3(b, a))
  }

  /** The normal depends on the winding alone: rotating the vertices keeps it, swapping two reverses it. */
  lemma FaceNormalWinding(a: Vec3, b: Vec3, c: Vec3)
    ensures FaceNormal(b, c, a) == FaceNormal(a, b, c)
    ensures FaceNormal(a, c, b) == Neg3(FaceNormal(a, b, c))
  {
    var n, r := FaceNormal(a, b, c), FaceNormal(b, c, a);
    // Both normals expand to the sum of the pairwise cross products a x c + c x b + b x a.
    assert n.x == (a.y * c.z - a.z * c.y) + (c.y * b.z - c.z * b.y) + (b.y * a.z - b.z * a.y);
    assert r.x == (a.y * c.z - a.z * c.y) + (c.y * b.z - c.z * b.y) + (b.y * a.z - b.z * a.y);
    assert n.y == (a.z * c.x - a.x * c.z) + (c.z * b.x - c.x * b.z) + (b.z * a.x - b.x * a.z);
    assert r.y == (a.z * c.x - a.x * c.z) + (c.z * b.x - c.x * b.z) + (b.z * a.x - b.x * a.z);
    assert n.z == (a.x * c.y - a.y * c.x) + (c.x * b.y - c.y * b.x) + (b.x * a.y - b.y * a.x);
    assert r.z == (a.x * c.y - a.y * c.x) + (c.x * b.y - c.y * b.x) + (b.x * a.y - b.y * a.x);
  }

  /**
   * `normalize((c - a) x (b - a)) . light` for the triangle's positions a, b, c.
   * nalgebra's `normalize` is not part of this model: it is passed in.
   */
  function FaceIntensity(triangle: TriangleInfo, light: Vec3, normalize: Vec3 -> Vec3): real {
    Dot3(normalize(FaceNormal(triangle.vertex0.vertex, triangle.vertex1.vertex, triangle.vertex2.vertex)), light)
  }

  /**
   * The intensity is the same whichever vertex the triangle starts from, and
   * with the winding reversed it is negated (when `normalize` keeps direction),
   * so a face lit from the front is dark from the back.
   */
  lemma FaceIntensityWinding(triangle: TriangleInfo, light: Vec3, normalize: Vec3 -> Vec3)
    requires var n := FaceNormal(triangle.vertex0.vertex, triangle.vertex1.vertex, triangle.vertex2.vertex);
      normalize(Neg3(n)) == Neg3(normalize(n))
    ensures FaceIntensity(TriangleInfo(triangle.vertex1, triangle.vertex2, triangle.vertex0), light, normalize)
      == FaceIntensity(triangle, light, normalize)
    ensures FaceIntensity(TriangleInfo(triangle.vertex0, triangle.vertex2, triangle.vertex1), light, normalize)
      == -FaceIntensity(triangle, light, normalize)
  {
    FaceNormalWinding(triangle.vertex0.vertex, triangle.vertex1.vertex, triangle.vertex2.vertex);
  }

  /** The grey the flat shader gives a pixel at `intensity`: all channels `(255 * intensity) as u8`. */
  function FlatColor(intensity: real): (c: Rgb)
    ensures c.r == c.g == c.b
    ensures intensity <= 0.0 ==> c == Black
    ensures intensity >= 1.0 ==> c == White
    ensures 0.0 <= intensity < 1.0 ==> c.r as real <= 255.0 * intensity < c.r as real + 1.0
  {
    var level := SatU8(255.0 * intensity);
    Rgb(level, level, level)
  }

  /** The flat shader's fragment stage at a given intensity: the colour written and the keep flag. */
  function FlatFragment(intensity: real, fragment: (int, int, real), barycentric: Vec3, pixelColor: Rgb): (out: (Rgb, bool))
    ensures out.1
    ensures out.0 == FlatColor(intensity)
  {
    var cleared := if intensity <= 0.0 then Black else pixelColor;
    (cleared.Map(_ => SatU8(255.0 * intensity)), true)
  }

  /** A brighter face never shades darker. */
  lemma FlatColorMonotone(i: real, j: real)
    requires i <= j
    ensures FlatColor(i).r <= FlatColor(j).r
  {
    SatU8Monotone(255.0 * i, 255.0 * j);
  }

  class FlatShader {
    var varyingIntensity: real
    var transform: Mat4
    var light: Vec3
    const normalize: Vec3 -> Vec3

    /** `FlatShader::new`. */
    constructor (transform: Mat4, light: Vec3, normalize: Vec3 -> Vec3)
      ensures varyingIntensity == 0.0
      ensures this.transform == transform && this.light == light && this.normalize == normalize
    {
      varyingIntensity := 0.0;
      this.transform := transform;
      this.light := light;
      this.normalize := normalize;
    }

    /**
     * The vertex stage: records the face intensity (the same whichever vertex
     * is asked for) and returns the vertex transformed to clip space.
     */
    method Vertex(triangle: TriangleInfo, vertexIndex: int) returns (clip: Vec4)
      requires 0 <= vertexIndex <= 2
      modifies this`varyingIntensity
      ensures varyingIntensity == FaceIntensity(triangle, light, normalize)
      ensures clip == MulVec(transform, Point(triangle.GetIndex(vertexIndex).vertex))
    {
      var normal := normalize(FaceNormal(triangle.vertex0.vertex, triangle.vertex1.vertex, triangle.vertex2.vertex));
      varyingIntensity := Dot3(normal, light);
      var triVertex := triangle.GetIndex(vertexIndex).vertex;
      var vertex := Vec4(triVertex.x, triVertex.y, triVertex.z, 1.0);
      clip := MulVec(transform, vertex);
    }

    /** The fragment stage: reads the shader, never changes it. */
    function Fragment(fragment: (int, int, real), barycentric: Vec3, pixelColor: Rgb): (out: (Rgb, bool))
      reads this
      ensures out.1 && out.0 == FlatColor(varyingIntensity)
    {
      FlatFragment(varyingIntensity, fragment, barycentric, pixelColor)
    }
  }
}
