/**
 * The shader interface: a vertex stage that may update the shader's own
 * per-triangle state and returns a clip-space position, and a fragment stage
 * that only reads that state and yields the pixel colour and a keep flag.
 * The two implementations are dispatched by variant.
 */
module Shaders {
  import opened Wrappers
  import opened Linalg
  import opened Images
  import opened TriangleData
  import opened FlatShading
  import opened TextureUtils
  import opened FlatTexturedShading

  /** What a shader holds that its stages never change: the configuration it was built with. */
  datatype Uniforms =
    | FlatUniforms(transform: Mat4, light: Vec3, normalize: Vec3 -> Vec3)
    | FlatTexturedUniforms(transform: Mat4, light: Vec3, normalize: Vec3 -> Vec3, texture: Raster)
  {
    ghost predicate Valid() {
      FlatTexturedUniforms? ==> texture.Valid()
    }

    /** The clip-space position the vertex stage gives vertex `vertexIndex` of `triangle`. */
    function Clip(triangle: TriangleInfo, vertexIndex: int): Vec4
      requires 0 <= vertexIndex <= 2
    {
      MulVec(transform, Point(triangle.GetIndex(vertexIndex).vertex))
    }

    /** The fragment stage's answer once the vertex stage has run for all three vertices of `triangle`. */
    function Shade(triangle: TriangleInfo, fragment: (int, int, real), barycentric: Vec3, pixelColor: Rgb): Option<(Rgb, bool)>
      requires Valid()
    {
      match this
      case FlatUniforms(_, light, normalize) =>
        Some(FlatFragment(FaceIntensity(triangle, light, normalize), fragment, barycentric, pixelColor))
      case FlatTexturedUniforms(_, light, normalize, texture) =>
        TexturedFragment(triangle.Uvs(), FaceIntensity(triangle, light, normalize), texture, fragment, barycentric, pixelColor)
    }
  }

  datatype Shader = Flat(flat: FlatShader) | FlatTextured(textured: FlatTexturedShader) {
    function Repr(): set<object> {
      match this
      case Flat(s) => {s}
      case FlatTextured(s) => {s}
    }

    ghost predicate Valid()
      reads Repr()
    {
      FlatTextured? ==> textured.Valid()
    }

    function GetUniforms(): (u: Uniforms)
      reads Repr()
      requires Valid()
      ensures u.Valid()
    {
      match this
      case Flat(s) => FlatUniforms(s.transform, s.light, s.normalize)
      case FlatTextured(s) => FlatTexturedUniforms(s.transform, s.light, s.normalize, s.texture)
    }

    /** The per-triangle state is what the vertex stage leaves after vertices 0, 1 and 2 of `triangle`. */
    ghost predicate PreparedFor(triangle: TriangleInfo)
      reads Repr()
    {
      match this
      case Flat(s) =>
        s.varyingIntensity == FaceIntensity(triangle, s.light, s.normalize)
      case FlatTextured(s) =>
        s.varyingIntensity == FaceIntensity(triangle, s.light, s.normalize) && s.varyingUv == triangle.Uvs()
    }

    /**
     * The vertex stage. It keeps the configuration, returns the transformed
     * vertex, sets the face intensity and (textured) fills UV slot `vertexIndex`;
     * called for 0, 1, 2 in order it leaves the shader prepared for the triangle.
     */
    method Vertex(triangle: TriangleInfo, vertexIndex: int) returns (clip: Vec4)
      requires Valid() && 0 <= vertexIndex <= 2
      modifies Repr()
      ensures Valid() && GetUniforms() == old(GetUniforms())
      ensures clip == GetUniforms().Clip(triangle, vertexIndex)
      ensures Flat? ==> flat.varyingIntensity == FaceIntensity(triangle, flat.light, flat.normalize)
      ensures FlatTextured? ==>
        && textured.varyingIntensity == FaceIntensity(triangle, textured.light, textured.normalize)
        && textured.varyingUv == old(textured.varyingUv)[vertexIndex := triangle.GetIndex(vertexIndex).uv]
    {
      match this
      case Flat(s) =>
        clip := s.Vertex(triangle, vertexIndex);
      case FlatTextured(s) =>
        clip := s.Vertex(triangle, vertexIndex);
    }

    /** The fragment stage: a function of the shader's state, so it cannot change it. `None` is a panic. */
    function Fragment(fragment: (int, int, real), barycentric: Vec3, pixelColor: Rgb): (out: Option<(Rgb, bool)>)
      reads Repr()
      requires Valid()
      ensures Flat? ==> out == Some((FlatColor(flat.varyingIntensity), true))
      ensures FlatTextured? && textured.varyingIntensity <= 0.0 ==> out == Some((Black, false))
      ensures FlatTextured? && textured.varyingIntensity > 0.0 ==>
        (out.Some? <==> GetColor(textured.texture, InterpolateUv(textured.varyingUv, barycentric)).Some?)
      ensures FlatTextured? && textured.varyingIntensity > 0.0 && out.Some? ==>
        var texel := GetColor(textured.texture, InterpolateUv(textured.varyingUv, barycentric)).value;
        out.value == (ScaleTexel(texel, textured.varyingIntensity), true)
    {
      match this
      case Flat(s) => Some(s.Fragment(fragment, barycentric, pixelColor))
      case FlatTextured(s) => s.Fragment(fragment, barycentric, pixelColor)
    }

    /** After the vertex stage for `triangle` the fragment stage answers as the configuration prescribes for it. */
    lemma PreparedFragment(triangle: TriangleInfo, fragment: (int, int, real), barycentric: Vec3, pixelColor: Rgb)
      requires Valid() && PreparedFor(triangle)
      ensures Fragment(fragment, barycentric, pixelColor) == GetUniforms().Shade(triangle, fragment, barycentric, pixelColor)
    {
    }
  }

  /** Running the vertex stage for 0, 1, 2 leaves the shader prepared, whatever state it started in. */
  method VertexStage(shader: Shader, triangle: TriangleInfo) returns (a: Vec4, b: Vec4, c: Vec4)
    requires shader.Valid()
    modifies shader.Repr()
    ensures shader.Valid() && shader.GetUniforms() == old(shader.GetUniforms())
    ensures shader.PreparedFor(triangle)
    ensures a == shader.GetUniforms().Clip(triangle, 0)
    ensures b == shader.GetUniforms().Clip(triangle, 1)
    ensures c == shader.GetUniforms().Clip(triangle, 2)
  {
    a := shader.Vertex(triangle, 0);
    b := shader.Vertex(triangle, 1);
    c := shader.Vertex(triangle, 2);
    if shader.FlatTextured? {
      assert shader.textured.varyingUv == triangle.Uvs();
    }
  }
}
