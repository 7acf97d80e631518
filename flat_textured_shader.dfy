/**
 * The textured flat shader: the flat shader's face intensity, applied to a
 * texel sampled at the barycentric blend of the triangle's three UVs.
 */
module FlatTexturedShading {
  import opened Wrappers
  import opened Linalg
  import opened Casts
  import opened Images
  import opened TriangleData
  import opened TextureUtils
  import opened FlatShading
  import opened RealArith
  import opened MathUtils

  /**
   * `uv[0] * w[0] + uv[1] * w[1] + uv[2] * w[2]`. Under convex weights the
   * blend of three UVs that land on a texel lands on a texel too.
   */
  function InterpolateUv(uvs: seq<Vec2>, barycentric: Vec3): (uv: Vec2)
    requires |uvs| == 3
    ensures Convex(barycentric) && InTexture(uvs[0]) && InTexture(uvs[1]) && InTexture(uvs[2]) ==> InTexture(uv)
  {
    BlendInTexture(uvs[0], uvs[1], uvs[2], barycentric);
    Add2(Add2(Scale2(uvs[0], barycentric.x), Scale2(uvs[1], barycentric.y)), Scale2(uvs[2], barycentric.z))
  }

  lemma BlendInTexture(t0: Vec2, t1: Vec2, t2: Vec2, w: Vec3)
    ensures Convex(w) && InTexture(t0) && InTexture(t1) && InTexture(t2) ==>
      InTexture(Add2(Add2(Scale2(t0, w.x), Scale2(t1, w.y)), Scale2(t2, w.z)))
  {
    if Convex(w) && InTexture(t0) && InTexture(t1) && InTexture(t2) {
      ConvexHalfOpen(w.x, w.y, w.z, t0.x, t1.x, t2.x);
      // Rows run the other way: 1 - v is in [0, 1).
      ConvexHalfOpen(w.x, w.y, w.z, 1.0 - t0.y, 1.0 - t1.y, 1.0 - t2.y);
      assert (1.0 - t0.y) * w.x == w.x - t0.y * w.x;
      assert (1.0 - t1.y) * w.y == w.y - t1.y * w.y;
      assert (1.0 - t2.y) * w.z == w.z - t2.y * w.z;
    }
  }

  lemma InterpolateUvComponents(uvs: seq<Vec2>, w: Vec3)
    requires |uvs| == 3
    ensures InterpolateUv(uvs, w) == Vec2(uvs[0].x * w.x + uvs[1].x * w.y + uvs[2].x * w.z,
                                          uvs[0].y * w.x + uvs[1].y * w.y + uvs[2].y * w.z)
  {
  }

  /** At a corner's unit weight the blend is that corner's UV. */
  lemma InterpolateUvAtCorners(uvs: seq<Vec2>)
    requires |uvs| == 3
    ensures InterpolateUv(uvs, Vec3(1.0, 0.0, 0.0)) == uvs[0]
    ensures InterpolateUv(uvs, Vec3(0.0, 1.0, 0.0)) == uvs[1]
    ensures InterpolateUv(uvs, Vec3(0.0, 0.0, 1.0)) == uvs[2]
  {
    var u0, u1, u2 := uvs[0], uvs[1], uvs[2];
    InterpolateUvComponents(uvs, Vec3(1.0, 0.0, 0.0));
    InterpolateUvComponents(uvs, Vec3(0.0, 1.0, 0.0));
    InterpolateUvComponents(uvs, Vec3(0.0, 0.0, 1.0));
    assert u0.x * 1.0 + u1.x * 0.0 + u2.x * 0.0 == u0.x && u0.y * 1.0 + u1.y * 0.0 + u2.y * 0.0 == u0.y;
    assert u0.x * 0.0 + u1.x * 1.0 + u2.x * 0.0 == u1.x && u0.y * 0.0 + u1.y * 1.0 + u2.y * 0.0 == u1.y;
    assert u0.x * 0.0 + u1.x * 0.0 + u2.x * 1.0 == u2.x && u0.y * 0.0 + u1.y * 0.0 + u2.y * 1.0 == u2.y;
  }

  /**
   * A texel channel scaled by the intensity: `(channel as f32 * intensity) as u8`.
   * A dim face darkens the texel, a face lit beyond 1 brightens it up to 255.
   */
  function ScaleChannel(channel: u8, intensity: real): (r: u8)
    ensures r == SatU8(channel as real * intensity)
    ensures intensity <= 0.0 ==> r == 0
    ensures 0.0 <= intensity <= 1.0 ==> r <= channel
    ensures intensity == 1.0 ==> r == channel
    ensures intensity >= 1.0 ==> channel <= r
  {
    var x := channel as real * intensity;
    NatAsReal(channel);
    if intensity <= 0.0 then
      ScaleNonPositive(intensity, channel as real, x);
      SatU8(x)
    else if intensity <= 1.0 then
      ScaleDown(channel as real, intensity, x);
      SatU8Monotone(x, channel as real);
      SatU8(x)
    else
      ScaleUp(channel as real, intensity, x);
      SatU8Monotone(channel as real, x);
      SatU8(x)
  }

  /** Every channel of a texel scaled by the intensity. */
  function ScaleTexel(texel: Rgb, intensity: real): Rgb {
    Rgb(ScaleChannel(texel.r, intensity), ScaleChannel(texel.g, intensity), ScaleChannel(texel.b, intensity))
  }

  /**
   * The textured shader's fragment stage from its per-triangle state: black and
   * discard when the face is unlit; otherwise the shaded texel and keep. `None`
   * where the texture lookup panics.
   */
  function TexturedFragment(varyingUv: seq<Vec2>, intensity: real, texture: Raster,
                            fragment: (int, int, real), barycentric: Vec3, pixelColor: Rgb): (out: Option<(Rgb, bool)>)
    requires |varyingUv| == 3 && texture.Valid()
    ensures intensity <= 0.0 ==> out == Some((Black, false))
    ensures intensity > 0.0 ==> (out.Some? <==> GetColor(texture, InterpolateUv(varyingUv, barycentric)).Some?)
    ensures intensity > 0.0 && out.Some? ==> out.value.1
    ensures intensity > 0.0 && out.Some? ==>
      var texel := GetColor(texture, InterpolateUv(varyingUv, barycentric)).value;
      && out.value.0 == ScaleTexel(texel, intensity)
      && (intensity <= 1.0 ==> out.value.0.r <= texel.r && out.value.0.g <= texel.g && out.value.0.b <= texel.b)
      && (intensity == 1.0 ==> out.value.0 == texel)
    ensures (&& intensity > 0.0 && texture.width > 0 && texture.height > 0 && Convex(barycentric)
             && InTexture(varyingUv[0]) && InTexture(varyingUv[1]) && InTexture(varyingUv[2])) ==> out.Some?
  {
    if intensity <= 0.0 then
      Some((Black, false))
    else
      var uv := InterpolateUv(varyingUv, barycentric);
      if InTexture(uv) && texture.width > 0 && texture.height > 0 then
        GetColorInRange(texture, uv);
        Some((ScaleTexel(GetColor(texture, uv).value, intensity), true))
      else
        match GetColor(texture, uv)
        case None => None
        case Some(color) => Some((ScaleTexel(color, intensity), true))
  }

  class FlatTexturedShader {
    var varyingUv: seq<Vec2>
    var varyingIntensity: real
    var transform: Mat4
    var light: Vec3
    var texture: Raster
    const normalize: Vec3 -> Vec3

    ghost predicate Valid()
      reads this
    {
      |varyingUv| == 3 && texture.Valid()
    }

    /** `FlatTexturedShader::new`: three zero UVs, intensity 0. */
    constructor (transform: Mat4, light: Vec3, texture: Raster, normalize: Vec3 -> Vec3)
      requires texture.Valid()
      ensures Valid()
      ensures varyingUv == [Vec2(0.0, 0.0), Vec2(0.0, 0.0), Vec2(0.0, 0.0)] && varyingIntensity == 0.0
      ensures this.transform == transform && this.light == light && this.texture == texture
      ensures this.normalize == normalize
    {
      varyingUv := [Vec2(0.0, 0.0), Vec2(0.0, 0.0), Vec2(0.0, 0.0)];
      varyingIntensity := 0.0;
      this.transform := transform;
      this.light := light;
      this.texture := texture;
      this.normalize := normalize;
    }

    /**
     * The vertex stage: stores the asked vertex's UV in its slot (the other two
     * slots keep what they held), records the face intensity and returns the
     * vertex transformed to clip space.
     */
    method Vertex(triangle: TriangleInfo, vertexIndex: int) returns (clip: Vec4)
      requires Valid() && 0 <= vertexIndex <= 2
      modifies this`varyingUv, this`varyingIntensity
      ensures Valid()
      ensures varyingUv == old(varyingUv)[vertexIndex := triangle.GetIndex(vertexIndex).uv]
      ensures varyingIntensity == FaceIntensity(triangle, light, normalize)
      ensures clip == MulVec(transform, Point(triangle.GetIndex(vertexIndex).vertex))
    {
      var vertexInfo := triangle.GetIndex(vertexIndex);
      var uv := vertexInfo.uv;
      varyingUv := varyingUv[vertexIndex := uv];
      var normal := normalize(FaceNormal(triangle.vertex0.vertex, triangle.vertex1.vertex, triangle.vertex2.vertex));
      varyingIntensity := Dot3(normal, light);
      var triVertex := vertexInfo.vertex;
      var vertex := Vec4(triVertex.x, triVertex.y, triVertex.z, 1.0);
      clip := MulVec(transform, vertex);
    }

    /**
     * The fragment stage: reads the shader, never changes it. An unlit face is
     * black and discarded; a lit one is the scaled texel under the blended UV,
     * or a panic where that UV is off the texture.
     */
    function Fragment(fragment: (int, int, real), barycentric: Vec3, pixelColor: Rgb): (out: Option<(Rgb, bool)>)
      reads this
      requires Valid()
      ensures varyingIntensity <= 0.0 ==> out == Some((Black, false))
      ensures varyingIntensity > 0.0 ==> (out.Some? <==> GetColor(texture, InterpolateUv(varyingUv, barycentric)).Some?)
      ensures varyingIntensity > 0.0 && out.Some? ==>
        out.value == (ScaleTexel(GetColor(texture, InterpolateUv(varyingUv, barycentric)).value, varyingIntensity), true)
    {
      TexturedFragment(varyingUv, varyingIntensity, texture, fragment, barycentric, pixelColor)
    }
  }
}
