/** `get_color`: sampling a texture at a UV coordinate, V flipped. */
module TextureUtils {
  import opened Wrappers
  import opened Casts
  import opened Linalg
  import opened Images
  import opened RealArith

  /**
   * The texel column for `u`: `(u * width) as u32`. u <= 0 is column 0,
   * [0, 1) stays inside, and u = 1 is one past the last column.
   */
  function TexelColumn(width: u32, u: real): (col: u32)
    ensures u <= 0.0 ==> col == 0
    ensures 0.0 <= u < 1.0 && width > 0 ==> col < width
    ensures u == 1.0 ==> col == width
  {
    var x := u * width as real;
    ScaledFacts(u, width, x);
    SatU32(x)
  }

  /**
   * The texel row for `v`: `(height - v * height) as u32`, so V runs bottom to
   * top. v >= 1 is row 0, (0, 1] stays inside, and v = 0 is one past the last row.
   */
  function TexelRow(height: u32, v: real): (row: u32)
    ensures v >= 1.0 ==> row == 0
    ensures 0.0 < v <= 1.0 && height > 0 ==> row < height
    ensures v == 0.0 ==> row == height
  {
    var y := height as real - v * height as real;
    ScaledFacts(1.0 - v, height, y);
    SatU32(y)
  }

  /** Where a fraction k of a size n lands, as the saturating cast sees it. */
  lemma ScaledFacts(k: real, n: u32, x: real)
    requires x == k * (n as real)
    ensures k <= 0.0 ==> SatU32(x) == 0
    ensures 0.0 <= k < 1.0 && n > 0 ==> SatU32(x) < n
    ensures k == 1.0 ==> SatU32(x) == n
  {
    if k <= 0.0 {
      ScaledNonPositive(k, n, x);
    }
    if 0.0 <= k < 1.0 && n > 0 {
      ScaledBelow(k, n, x);
      SatU32Below(x, n);
    }
    if k == 1.0 {
      SatU32At(n);
    }
  }

  lemma SatU32Below(x: real, n: u32)
    requires x < n as real && n > 0
    ensures SatU32(x) < n
  {
  }

  lemma SatU32At(n: u32)
    ensures SatU32(n as real) == n
  {
  }

  /** A non-positive fraction of a size is at most zero. */
  lemma ScaledNonPositive(k: real, n: u32, x: real)
    requires k <= 0.0 && x == k * (n as real)
    ensures x <= 0.0
  {
    NatAsReal(n);
    ScaleNonPositive(k, n as real, x);
  }

  /** A fraction in [0, 1) of a positive size stays below it. */
  lemma ScaledBelow(k: real, n: u32, x: real)
    requires 0.0 <= k < 1.0 && n > 0 && x == k * (n as real)
    ensures x < n as real
  {
    NatAsReal(n);
    ScaleBelow(k, n as real, x);
  }

  /** The texel under `uv`, or `None` where `get_pixel` panics. The texture is only read. */
  function GetColor(image: Raster, uv: Vec2): (r: Option<Rgb>)
    requires image.Valid()
    ensures var col, row := TexelColumn(image.width, uv.x), TexelRow(image.height, uv.y);
      && (r.Some? <==> col < image.width && row < image.height)
      && (r.Some? ==> PixelIndex(col, row, image.width) < |image.pixels|
                      && r.value == image.pixels[PixelIndex(col, row, image.width)])
  {
    var col, row := TexelColumn(image.width, uv.x), TexelRow(image.height, uv.y);
    image.GetPixel(col, row)
  }

  /** The UVs that land on a texel of every non-empty texture: [0, 1) x (0, 1]. */
  predicate InTexture(uv: Vec2) {
    0.0 <= uv.x < 1.0 && 0.0 < uv.y <= 1.0
  }

  /** Every UV in [0, 1) x (0, 1] of a non-empty texture samples a texel. */
  lemma GetColorInRange(image: Raster, uv: Vec2)
    requires image.Valid() && image.width > 0 && image.height > 0
    requires InTexture(uv)
    ensures GetColor(image, uv).Some?
  {
  }

  /** The bottom edge v = 0 and the right edge u = 1 fall outside the texture: `get_pixel` panics. */
  lemma GetColorPanicsOnFarEdges(image: Raster, uv: Vec2)
    requires image.Valid()
    requires uv.y == 0.0 || uv.x == 1.0
    ensures GetColor(image, uv).None?
  {
  }
}
