# rustrenderer in Dafny

A model of the core of rustrenderer, a small CPU triangle rasterizer, with
proofs about it. The renderer walks a model's triangles in order. For each
one, it runs the shader's vertex stage for vertices 0, 1 and 2 and then
rasterizes the triangle:

- it scans the triangle's rounded screen bounding box, clipped to the image;
- it rejects every pixel whose screen barycentric weights are not all non-negative;
- it interpolates depth with perspective-corrected weights;
- it keeps a pixel only when its depth is strictly greater than the z-buffer's;
- it writes that depth and then the colour the fragment stage produces.

Around that loop the model covers:

- the viewport matrix and barycentric conversion;
- the vertex and triangle records;
- the shader interface with its two implementations, flat and flat-textured;
- the texture lookup;
- the Wavefront OBJ line parser that builds the triangle list.

Modules, one per source file:

| module | file | form |
|---|---|---|
| `Gl` | `gl.dfy` | imperative: `TriangleRasterize` and `Render` loop over an `array` z-buffer and an `Image` class, proved against the functions `RasterCell` and `History` |
| `MathUtils` | `math_utils.dfy` | functions and lemmas |
| `TriangleData` | `triangle_info.dfy` | datatypes |
| `Shaders` | `shader.dfy` | the shader interface, as a datatype over the two shader classes |
| `FlatShading`, `FlatTexturedShading` | `flat_shader.dfy`, `flat_textured_shader.dfy` | classes: `Vertex` updates fields in place; `Fragment` only reads them |
| `TextureUtils` | `texture_utils.dfy` | functions and lemmas |
| `ModelUtils` | `model_utils.dfy` | functions for one line, and a `while` loop over the lines proved against their fold |

Support modules:

- `Linalg`: vectors and 4x4 matrices over `real`.
- `Casts`: `f32::round`, and saturating `as u8` / `as u32`.
- `Images`: the `image` crate's row-major RGB buffer.
- `RealArith`: small arithmetic lemmas.
- `Wrappers`: `Option`.

How the model represents the source:

- **Numbers.** `f32` is `real`. `round()` rounds halfway cases away from zero. `as u8` and `as u32` truncate toward zero and then saturate.
- **Panics become `None`.** Examples: a texel lookup out of range, a malformed OBJ line, a fragment stage that panics during rasterizing.
- **`get_index`.** Its panic on an ordinal outside 0..2 becomes a precondition.
- **The `Shader` trait.** It is a datatype with one variant per implementation.
- **Fragment stage.** Modelled as a function that reads the shader and cannot change it. It returns the colour it leaves in `pixel_color`, together with its keep flag.

Behaviour worth noting:

- **The keep flag is ignored.** `triangle_rasterize` never reads the fragment's result (src/gl.rs:84-90). Every pixel that passes the depth test gets the depth and the colour the fragment stage left in `pixel_color`. This includes the textured shader's black on an unlit face, which it reports as "discard".
- **The fragment stage starts from white.** `pixel_color` starts as white, not as the pixel already in the image (src/gl.rs:82).
- **Off-screen triangles.** The bounding box is the rounded extent after a saturating cast, clamped by `max(0, …)` and `min(width - 1, …)` (src/gl.rs:39-49). A triangle wholly to the right of or below the image gets a minimum past `width - 1` or `height - 1`, so the box is empty and the loops do not run. A triangle left of or above pixel centre 0.5 gets a box of column 0 or row 0 (`Gl.BoxBeyondImage`); when it lies wholly at negative coordinates, the inside test rejects every pixel of the image (`Gl.BeforeImageNotSampled`).

## Model

| member | source | states |
|---|---|---|
| Casts.SatU8 | src/flat_shader.rs:38 | `x as u8`: 0 below 1, 255 from 255 up, and in between the largest integer not above `x` |
| Casts.SatU32 | src/texture_utils.rs:6 | `x as u32`: 0 below 1, u32::MAX from u32::MAX up, truncation toward zero in between |
| Casts.Round | src/gl.rs:39-49 | `round()` is within 0.5 of its argument, and a tie goes away from zero |
| Casts.SatU8Monotone | src/flat_shader.rs:38 | the saturating `as u8` never reverses the order of two values |
| Casts.RoundBrackets | src/gl.rs:39-49 | an integer bound on a value is also a bound on the value rounded |
| Linalg.CrossOrthogonal | src/flat_shader.rs:18 | the cross product of two edges is orthogonal to both, so it is a face normal |
| FlatShading.FaceNormal | src/flat_shader.rs:18 | `(c - a) x (b - a)` is orthogonal to both edges leaving a |
| FlatShading.FaceNormalWinding | src/flat_shader.rs:18 | the normal depends only on the winding: starting from another vertex keeps it, swapping two vertices reverses it |
| FlatShading.FaceIntensityWinding | src/flat_shader.rs:18-19 | the face intensity is the same whichever vertex the triangle starts from, and is negated when the winding is reversed (for a `normalize` that keeps direction), so a face lit from the front is dark from the back |
| MathUtils.CreateViewport | src/math_utils.rs:3-19 | the diagonal scales by half the width, half the height and half the depth range, with m44 = 1; the translation column is origin plus half size and the middle of the depth range; every other entry is 0 |
| MathUtils.ViewportMaps | src/math_utils.rs:8-17 | the matrix maps each clip point to the affine image `x + w/2 (p.x + 1)`, `y + h/2 (p.y + 1)`, `(p.z + 1)/2`, with w = 1 |
| MathUtils.ViewportCorners | src/math_utils.rs:8-17 | clip (-1,-1,-1,1) lands on (x, y, 0, 1) and (1,1,1,1) on (x+width, y+height, 1, 1) |
| MathUtils.ToBarycentric | src/math_utils.rs:22-40 | a doubled area below 1e-2 in absolute value gives the sentinel (-1, 1, 1); otherwise the weights sum to 1 |
| MathUtils.BarycentricReconstructs | src/math_utils.rs:28-38 | for a proper triangle the weights reproduce the point: w0 a + w1 b + w2 c = p |
| MathUtils.BarycentricUnique | src/math_utils.rs:28-38 | any weights summing to 1 that reproduce p are the ones returned, so the conversion inverts the combination |
| MathUtils.BarycentricAtCorners | src/math_utils.rs:28-38 | the corners a, b, c get the unit weights (1,0,0), (0,1,0), (0,0,1) |
| MathUtils.InsideIffConvexCombination | src/math_utils.rs:22-40 | for a proper triangle all weights are non-negative exactly when p is a convex combination of the corners |
| MathUtils.DegenerateCoversNothing | src/math_utils.rs:34-35 | the sentinel has a negative weight, so a degenerate triangle passes no inside test |
| TriangleData.TriangleInfo.GetIndex | src/triangle_info.rs:19-26 | ordinals 0, 1, 2 select vertex0, vertex1, vertex2; any other ordinal panics, so it is excluded |
| Images.Raster.GetPixel | src/texture_utils.rs:6 | the pixel at row-major index y*width+x when (x, y) is inside the buffer, and a panic exactly when it is not |
| Images.Image.constructor | src/main.rs:19-22 | `RgbImage::new`: a width x height buffer, every pixel black |
| Images.Image.PutPixel | src/gl.rs:90 | overwrites the cell of (x, y) and no other |
| Images.Image.Snapshot | src/gl.rs:24 | `to_owned`: a copy of the buffer with the same size and contents |
| Images.PixelIndexInBounds | src/gl.rs:76-80 | for x < width and y < height, the index y*width + x is below width*height, so the z-buffer access is in bounds |
| Images.PixelIndexCoords | src/gl.rs:76-80 | column and row come back from the index as its remainder and quotient by width |
| Images.CellCoords | src/gl.rs:76-80 | every cell of a width*height buffer is the index of the one pixel given by its remainder and quotient |
| FlatShading.FlatColor | src/flat_shader.rs:32-38 | all three channels equal; black when intensity <= 0; white when it is >= 1; in between `255 * intensity` truncated |
| FlatShading.FlatFragment | src/flat_shader.rs:26-40 | always keeps; the colour depends on the intensity only, ignoring the pixel, the weights and the incoming colour |
| FlatShading.FlatColorMonotone | src/flat_shader.rs:36-38 | a brighter face never shades darker |
| FlatShading.FlatShader.constructor | src/flat_shader.rs:44-50 | intensity 0, transform and light stored as given |
| FlatShading.FlatShader.Fragment | src/flat_shader.rs:26-40 | the fragment stage always keeps, with the grey of the intensity the vertex stage recorded |
| FlatShading.FlatShader.Vertex | src/flat_shader.rs:13-24 | sets the intensity to normalize((c-a)x(b-a)) . light, whichever vertex is asked for, and returns transform * (v, 1) for the selected vertex |
| FlatTexturedShading.InterpolateUv | src/shaders/flat_textured_shader.rs:45 | with convex weights, a UV blended from three UVs in [0, 1) x (0, 1] stays in that range, so it finds a texel |
| FlatTexturedShading.InterpolateUvComponents | src/shaders/flat_textured_shader.rs:45 | the interpolated UV is the barycentric-weighted sum of the three stored UVs |
| FlatTexturedShading.InterpolateUvAtCorners | src/shaders/flat_textured_shader.rs:45 | a unit weight selects that vertex's UV |
| FlatTexturedShading.ScaleChannel | src/shaders/flat_textured_shader.rs:48 | `(channel * intensity) as u8` is the saturating cast of the product: 0 for an intensity <= 0, at most the channel for an intensity in [0, 1], the channel itself at 1, and at least the channel above 1 |
| FlatTexturedShading.TexturedFragment | src/shaders/flat_textured_shader.rs:34-50 | unlit face: black and discard; lit face: a panic exactly when the texel lookup panics, otherwise keep and each texel channel scaled by the intensity with the saturating cast; no panic when the weights are convex and the three UVs lie in [0, 1) x (0, 1] of a non-empty texture |
| FlatTexturedShading.FlatTexturedShader.Fragment | src/shaders/flat_textured_shader.rs:34-50 | the fragment stage on the recorded UVs and intensity: black and discard on an unlit face, otherwise the scaled texel, panicking exactly when the lookup does |
| FlatTexturedShading.FlatTexturedShader.constructor | src/shaders/flat_textured_shader.rs:53-62 | three zero UVs, intensity 0, and the configuration stored |
| FlatTexturedShading.FlatTexturedShader.Vertex | src/shaders/flat_textured_shader.rs:15-32 | writes UV slot i, leaves the other two slots, sets the same face intensity as the flat shader and returns transform * (v, 1) |
| TextureUtils.TexelColumn | src/texture_utils.rs:6 | u <= 0 gives column 0, u in [0, 1) a column inside the texture, u = 1 the column one past the last |
| TextureUtils.TexelRow | src/texture_utils.rs:6 | V is flipped: v >= 1 gives row 0, v in (0, 1] a row inside, v = 0 the row one past the last |
| TextureUtils.GetColor | src/texture_utils.rs:4-7 | the texel at (column, row) when both are in range, otherwise a panic; the texture is only read |
| TextureUtils.GetColorInRange | src/texture_utils.rs:6 | every UV in [0, 1) x (0, 1] of a non-empty texture finds a texel |
| TextureUtils.GetColorPanicsOnFarEdges | src/texture_utils.rs:6 | v = 0 or u = 1 falls outside the texture and panics |
| Shaders.Shader.Vertex | src/shader.rs:7 | the vertex stage may change only the shader's per-triangle state, keeps its configuration and returns the clip-space vertex |
| Shaders.Shader.Fragment | src/shader.rs:8-13 | dispatches to the implementation: the flat grey and keep, or the textured answer (black and discard when unlit, else the scaled texel or a panic exactly when the lookup panics) |
| Shaders.Shader.PreparedFragment | src/shader.rs:8-13 | once the vertex stage has run for a triangle, the fragment stage's answer depends on the configuration and that triangle alone |
| Shaders.VertexStage | src/gl.rs:17-19 | vertex stages 0, 1, 2 in order leave the shader prepared for the triangle, whatever state it started in, and return the three clip-space vertices |
| Gl.ScreenPoint | src/gl.rs:35-37 | the screen point times w gives back the clip x and y; at w = 1 it is (x, y) itself |
| Gl.RoundU32 | src/gl.rs:39-49 | `round() as u32`: 0 below 0.5, and within 0.5 of the value inside the u32 range |
| Gl.BoundingBox | src/gl.rs:39-49 | the rounded, clipped box lies inside the image, given width and height >= 1 |
| Gl.BoxBeyondImage | src/gl.rs:39-51 | a triangle wholly right of or below the image gets an empty box; one left of or above pixel centre 0.5 gets just column or row 0 |
| Gl.BeforeImageNotSampled | src/gl.rs:53-61 | a triangle at wholly negative x (or y) passes the inside test at no pixel of the image |
| Gl.RoundU32Below | src/gl.rs:39-49 | a screen coordinate at or below pixel q rounds to at most q |
| Gl.RoundU32Above | src/gl.rs:39-49 | a screen coordinate at or above pixel q rounds to at least q |
| Gl.ConvexBetween | src/gl.rs:72-74 | a convex combination of three numbers is at least one of them and at most one of them |
| Gl.AxisCovers | src/gl.rs:39-52 | along one axis, a pixel inside the triangle lies between the box's bounds |
| Gl.BoxCovers | src/gl.rs:39-61 | the box misses no image pixel that passes the inside test |
| Gl.PerspectiveWeights | src/gl.rs:63-70 | the weights are proportional to s_i / w_i (all three pairwise cross-multiplications agree), non-negative and sum to 1 |
| Gl.PerspectiveWeightsAffine | src/gl.rs:63-70 | when the three w are equal the correction leaves the screen weights as they are |
| Gl.Sample | src/gl.rs:53-74 | a pixel is sampled exactly when its screen weights are all non-negative; its weights are the perspective correction of those screen weights, convex, and its depth is their blend of the vertex z |
| Gl.SampleIffInside | src/gl.rs:53-61 | for a proper screen triangle, sampled exactly when the pixel is a convex combination of the screen corners |
| Gl.OutsideBoxNotSampled | src/gl.rs:39-61 | no pixel outside the box passes the inside test |
| Gl.DegenerateSamplesNothing | src/gl.rs:53-61 | a triangle that collapses on screen is sampled nowhere |
| Gl.SampleDepthWithin | src/gl.rs:72-74 | the interpolated depth lies within any range that holds the three vertex depths |
| Gl.SampleAtFirstVertex | src/gl.rs:63-74 | on the first vertex's pixel, the weights are (1, 0, 0) and the depth is that vertex's z |
| Gl.Update | src/gl.rs:56-90 | no sample, or a depth not strictly greater, leaves the cell as it was; otherwise the new depth and the fragment's colour are stored together; a panic only after a won depth test; the depth never decreases |
| Gl.OutsideBoxUntouched | src/gl.rs:39-52 | every cell outside the box keeps its depth and colour |
| Gl.ShadePixel | src/gl.rs:53-90 | one pass of the inner loop changes only the cell of (x, y), and changes it as Update prescribes |
| Gl.ScanColumn | src/gl.rs:52-91 | the inner loop settles every cell of column x in the box at its prescribed outcome, or stops at a panic |
| Gl.ScanComplete | src/gl.rs:51-92 | once the scan passes the box, every cell, inside the box or not, holds its prescribed outcome |
| Gl.TriangleRasterize | src/gl.rs:27-93 | `triangle_rasterize`: panics exactly when some cell's rule panics; otherwise every depth and pixel is its cell rule applied to the old depth and pixel |
| Gl.PreparedCell | src/gl.rs:14-22 | after the vertex stage, rasterizing with the shader is the configuration's rule for that triangle |
| Gl.HistoryNonePersists | src/gl.rs:14-23 | a panic at a pixel is a panic of the whole render |
| Gl.HistoryDepthIsMax | src/gl.rs:14-23 | a pixel's final depth is the greatest of its starting depth and the depths of the triangles covering it |
| Gl.HistoryDepthAbove | src/gl.rs:14-23 | a pixel's final depth is at least its starting depth and the depth of every triangle covering it |
| Gl.HistoryDepthAttained | src/gl.rs:14-23 | a pixel's final depth is its starting depth or the depth of some triangle covering it |
| Gl.HistoryKeepsColor | src/gl.rs:76-90 | a pixel whose depth never rose keeps its colour, so every colour write comes with a depth write |
| Gl.HistoryLastWriter | src/gl.rs:76-90 | a pixel whose depth rose shows the colour the fragment stage gave a triangle covering it at exactly that depth |
| Gl.HistoryUncovered | src/gl.rs:53-61 | a pixel no triangle covers keeps its depth and colour |
| Gl.RenderTriangle | src/gl.rs:15-22 | one pass of the render loop extends every pixel's history by the next triangle, or reports a panic in some history |
| Gl.Render | src/gl.rs:8-25 | triangles in order on a private z-buffer copy; a panic exactly when some pixel's history panics; otherwise every pixel ends as its history prescribes, the result is a copy of the image, and an empty model changes nothing |
| ModelUtils.Split | src/model_utils.rs:31 | `split(['/', ' '])` yields at least one piece |
| ModelUtils.SplitShape | src/model_utils.rs:31 | one piece more than separators, and no piece holds a separator |
| ModelUtils.SplitJoin | src/model_utils.rs:31 | joining the pieces with the removed separators gives back the line |
| ModelUtils.SplitWord | src/model_utils.rs:31 | a word without separators is one piece |
| ModelUtils.SplitAfterSeparator | src/model_utils.rs:31 | a separator followed by a clean word adds exactly that word as a piece, empty or not |
| ModelUtils.SplitExample | src/model_utils.rs:31 | `f 1//3` splits into `f`, `1`, an empty piece and `3` |
| ModelUtils.NonEmpty | src/model_utils.rs:31 | the filter keeps only non-empty pieces, each one from the input; it keeps a list with no empty piece whole and drops a list of empty pieces entirely |
| ModelUtils.NonEmptyAppend | src/model_utils.rs:31 | filtering distributes over concatenation, so no non-empty piece is dropped or moved |
| ModelUtils.NonEmptySingle | src/model_utils.rs:31 | one piece is kept exactly when it is non-empty |
| ModelUtils.TokensClean | src/model_utils.rs:31 | `Tokenize`, the split with empty pieces dropped: every token is non-empty and holds no separator |
| ModelUtils.TokenizeSkipsEmpty | src/model_utils.rs:31 | `f 1//3` gives the three tokens `f`, `1`, `3` |
| ModelUtils.ParseUsize | src/model_utils.rs:51-63 | after dropping one leading '+', a token parses exactly when it is a non-empty run of digits whose value fits in 64 bits, and the result is that value; the empty string and a lone '+' fail |
| ModelUtils.ShowNatValue | src/model_utils.rs:51-63 | a decimal numeral denotes the number written |
| ModelUtils.ParseShowRoundTrip | src/model_utils.rs:51-63 | every index up to usize::MAX parses back from its numeral, with or without a leading '+' |
| ModelUtils.ParseVec3 | src/model_utils.rs:35-44 | a `v` or `vn` line gives a vector exactly when tokens 1..3 exist and parse, and it is built from them in order |
| ModelUtils.ParseVec2 | src/model_utils.rs:45-48 | a `vt` line gives a vector exactly when tokens 1..2 exist and parse |
| ModelUtils.Lookup | src/model_utils.rs:51-63 | a 1-based reference succeeds exactly for a parsed index in 1..len, and yields element index-1 of the list built so far |
| ModelUtils.FaceVertex | src/model_utils.rs:50-64 | vertex k of a face is the position, texture coordinate and normal looked up by tokens 3k+1, 3k+2, 3k+3; it panics exactly when one of the three lookups does |
| ModelUtils.ParseFace | src/model_utils.rs:49-65 | fewer than ten tokens panics; otherwise the triangle is the three face vertices 0, 1, 2 and panics exactly when one of them does; every attribute comes from the lists read so far |
| ModelUtils.ParseLine | src/model_utils.rs:31-70 | a line with no tokens or an unknown tag changes nothing; `v`, `vn`, `vt` and `f` each append one element to their own list and change no other |
| ModelUtils.LoadGrows | src/model_utils.rs:16-76 | reading more lines only appends: each list of a prefix of the file is a prefix of the final one, so triangles keep file order |
| ModelUtils.LoadCountsFaces | src/model_utils.rs:49-76 | a file that loads yields exactly one triangle per `f` line |
| ModelUtils.LoadPanicPersists | src/model_utils.rs:28-74 | a panic on any line is a panic of the whole load |
| ModelUtils.LoadModel | src/model_utils.rs:15-77 | the loop over the lines returns the triangles of the fold over them, and panics exactly when the fold does |

## Left out

- **File I/O.** Opening and reading the OBJ file is not modelled, including its I/O-error panics (src/model_utils.rs:22-28, 72). `LoadModel` takes the lines.
- **The program entry in src/main.rs** is left out: timing, the vertical flip, saving the PNG and the constant setup. Only the black image it creates is modelled.
- **`str::parse::<f32>`** is the parameter `parseReal`, a partial function from token to real. The `usize` parse is modelled exactly, for a 64-bit target.
- **nalgebra's `normalize`** is the parameter `normalize` of both shaders. Its square root over `f32` is not modelled.
- **IEEE `f32` behaviour** is not modelled: rounding error, NaN, infinities and division by zero. The 1e-2 degeneracy threshold is the real 0.01.
- Gl.TriangleRasterize, Gl.Render: require every clip-space w to be positive. The source divides by w without a check; a w of zero, or perspective weights summing to zero, gives IEEE infinities or NaN, which are not modelled, and a negative w is not excluded by the source. The program's only transform is the viewport matrix, whose last row is (0, 0, 0, 1), so every w it produces is 1.
- Gl.TriangleRasterize, Gl.Render: require width and height >= 1. The source computes `width - 1` in u32, which on an empty image panics in a debug build and wraps to u32::MAX in a release build.
- Gl.TriangleRasterize, Gl.Render: require the z-buffer length to be width * height. The source indexes the buffer only at pixels that pass the inside test (src/gl.rs:56-61, 76), so a shorter buffer panics only when such a pixel lies past its end; an empty model, or one whose triangles cover no pixel, renders with any buffer. The source ignores the excess of a longer one. The model requires the full length.
- Gl.ShadePixel: the index `y * width + x` is computed without the u32 wrap-around of the source. Under the length precondition it wraps only for images of more than 2^32 pixels (a z-buffer over 16 GiB). There a debug build panics and a release build reads and writes another pixel's depth (src/gl.rs:76-80). The model does not cover such images.
- Gl.ShadePixel: the fragment coordinate is passed as an unbounded integer, not wrapped by `as i32`. Coordinates of 2^31 and above would wrap in the source.
- Gl.TriangleRasterize, Gl.Render, ModelUtils.LoadModel: on a panic the model reports `false` / `None` and says nothing about the buffers. The source aborts at that point.
- Images.Image.PutPixel: a write outside the image is a precondition, not a panic. The rasterizer only writes inside its clipped box.
- **Vertex ordinals.** `get_index` with an ordinal outside 0..2 is a precondition, not an error value. The renderer only ever passes 0, 1 and 2.
- **Where the `image` crate stores colours.** Its internal byte layout is not modelled; an image is a flat row-major sequence of RGB triples.
