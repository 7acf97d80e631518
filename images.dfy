/**
 * The `image` crate's RGB buffer as the renderer uses it: pixels stored row
 * by row, pixel (x, y) at index y * width + x. `Raster` is an immutable
 * buffer read through `get_pixel` (a texture); `Image` is the render target
 * written in place through `put_pixel`.
 */
module Images {
  import opened Wrappers
  import opened Casts

  datatype Rgb = Rgb(r: u8, g: u8, b: u8) {
    /** The same function applied to each channel (`[u8; 3]::map`). */
    function Map(f: u8 -> u8): Rgb {
      Rgb(f(r), f(g), f(b))
    }
  }

  const Black: Rgb := Rgb(0, 0, 0)
  const White: Rgb := Rgb(255, 255, 255)

  /** The row-major index of pixel (x, y). */
  function PixelIndex(x: nat, y: nat, width: nat): nat {
    y * width + x
  }

  lemma MulMonotone(a: int, b: int, c: nat)
    requires a <= b
    ensures a * c <= b * c
  {
  }

  lemma PixelIndexInBounds(x: nat, y: nat, width: nat, height: nat)
    requires x < width && y < height
    ensures PixelIndex(x, y, width) < width * height
  {
    MulMonotone(y + 1, height, width);
  }

  /** Column and row of a cell are recovered from its index. */
  lemma PixelIndexCoords(x: nat, y: nat, width: nat)
    requires x < width
    ensures PixelIndex(x, y, width) % width == x
    ensures PixelIndex(x, y, width) / width == y
  {
    var i := PixelIndex(x, y, width);
    var q, r := i / width, i % width;
    assert (q - y) * width == x - r;
    if q > y {
      MulMonotone(1, q - y, width);
      assert false;
    } else if q < y {
      MulMonotone(1, y - q, width);
      assert false;
    }
  }

  /** Every cell of a width x height buffer is the index of one pixel. */
  lemma CellCoords(i: nat, width: nat, height: nat)
    requires i < width * height
    ensures width > 0
    ensures 0 <= i % width < width && 0 <= i / width < height
    ensures PixelIndex(i % width, i / width, width) == i
  {
    if width == 0 {
      assert false;
    }
    if i / width >= height {
      MulMonotone(height, i / width, width);
      assert false;
    }
  }

  /** Exactly one cell of a `width`-wide grid has coordinates (x, y). */
  lemma CellOf(x: nat, y: nat, width: nat, height: nat)
    requires x < width && y < height
    ensures forall i | 0 <= i < width * height && i % width == x && i / width == y :: i == PixelIndex(x, y, width)
  {
    forall i | 0 <= i < width * height && i % width == x && i / width == y
      ensures i == PixelIndex(x, y, width)
    {
      CellCoords(i, width, height);
    }
  }

  datatype Raster = Raster(width: u32, height: u32, pixels: seq<Rgb>) {
    ghost predicate Valid() {
      |pixels| == width * height
    }

    /** `get_pixel`: the pixel at (x, y), or `None` where the crate panics (out of bounds). */
    function GetPixel(x: int, y: int): (r: Option<Rgb>)
      requires Valid()
      ensures r.Some? <==> 0 <= x < width && 0 <= y < height
      ensures r.Some? ==> PixelIndex(x, y, width) < |pixels| && r.value == pixels[PixelIndex(x, y, width)]
    {
      if 0 <= x < width && 0 <= y < height then
        PixelIndexInBounds(x, y, width, height);
        Some(pixels[PixelIndex(x, y, width)])
      else
        None
    }
  }

  class Image {
    const width: u32
    const height: u32
    const pixels: array<Rgb>

    ghost predicate Valid() {
      pixels.Length == width * height
    }

    /** `RgbImage::new`: every pixel black. */
    constructor (width: u32, height: u32)
      ensures Valid() && fresh(pixels)
      ensures this.width == width && this.height == height
      ensures forall i :: 0 <= i < pixels.Length ==> pixels[i] == Black
    {
      this.width, this.height := width, height;
      pixels := new Rgb[width * height](_ => Black);
    }

    /** The whole buffer as a value (`to_owned`). */
    function Snapshot(): (r: Raster)
      reads pixels
      requires Valid()
      ensures r.Valid() && r.width == width && r.height == height
      ensures r.pixels == pixels[..]
    {
      Raster(width, height, pixels[..])
    }

    /** `put_pixel`: overwrites exactly the cell of (x, y); the crate panics out of bounds. */
    method PutPixel(x: nat, y: nat, color: Rgb)
      requires Valid() && x < width && y < height
      modifies pixels
      ensures PixelIndex(x, y, width) < pixels.Length
      ensures pixels[..] == old(pixels[..])[PixelIndex(x, y, width) := color]
    {
      PixelIndexInBounds(x, y, width, height);
      pixels[PixelIndex(x, y, width)] := color;
    }
  }
}
