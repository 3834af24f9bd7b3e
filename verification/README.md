# Depth-displaced skybox sphere

A Dafny model of the geometry code in the Blockade Labs skybox template
(`public/type_templates/blockadelabsskybox.js`). The template loads a
panorama and its greyscale depth image and builds an inward-facing sphere
shaped by that depth. It works in four steps:

1. **Decode.** The red byte of every RGBA pixel becomes a depth of `r / 255 * 10`.
   The result goes into a zero-filled buffer of `width * height` floats
   (module `DepthDecode`).
2. **Stitch.** One ordered pass over the sphere's vertices remembers the first
   vertex seen at each exact position. Every later vertex at that position gets
   the first vertex's texture coordinate (module `Stitching`).
3. **Displace.**
   - Each vertex's texture coordinate is wrapped: `u` by a true modulo, `v` flipped and clamped.
   - The depth grid is sampled bilinearly at that point (module `DepthField`).
   - The sample becomes a radial factor `clamp(10 / depth, 1, 100)` (module `Numeric`).
   - The vertex is scaled by that factor in place (module `SphereDisplacement`).
4. **Reverse winding.** Every index triple `(a, b, c)` becomes `(c, b, a)`, so
   the faces point towards a viewer inside the sphere (module `Winding`).

How the modules are used:

- `Mesh` fixes the flat buffer layout: 3 reals per vertex position, 2 per UV.
- `Skybox.BuildMesh` runs the steps in source order.
- The lemmas in `Skybox` connect the steps end to end:
  - seams stay closed after displacement;
  - a uniform image scales the whole sphere uniformly;
  - the worked examples for white, mid-grey and black images.

The loops that change buffers in place are methods over arrays:

- `DecodeDepth`;
- `Stitch`, whose map is a local `map<Vec3, nat>`;
- `Displace`;
- `ReverseWinding`.

Each method's postcondition ties the final array contents to a specification
function (`DecodedDepth`, `Stitched`, `Displaced`, `ReversedTriangles`). The
lemmas are stated about those functions.

JavaScript numbers are modelled as mathematical reals.

## Model

| member | source | states |
|---|---|---|
| `Numeric.Clamp` | public/type_templates/blockadelabsskybox.js:51-53 | For `lo <= hi` the result lies in `[lo, hi]`. It is `v` when `v` is inside the range, `lo` below it and `hi` above it. |
| `Numeric.ClampMonotone` | public/type_templates/blockadelabsskybox.js:51-53 | Clamping preserves order. |
| `Numeric.Mod` | public/type_templates/blockadelabsskybox.js:199-202 | The true modulo has the sign of the divisor. For `y > 0` it lies in `[0, y)` for every real `x`, negatives included. For `y < 0` it lies in `(y, 0]`. |
| `Numeric.ModPeriodic` | public/type_templates/blockadelabsskybox.js:200-202 | Adding any whole multiple of `y` to `x` leaves `mod(x, y)` unchanged. |
| `Numeric.ModOfInRange` | public/type_templates/blockadelabsskybox.js:200-202 | Values already in `[0, y)` are returned unchanged. |
| `Numeric.Displacement` | public/type_templates/blockadelabsskybox.js:195-211 | The factor `clamp(scale / depth, min * scale, max * scale)` always lies in `[1, 100]`. It equals `scale / depth` when that is in range. A zero depth, which is `+Infinity` in JavaScript, gives 100. A negative depth gives 1. |
| `Numeric.DisplacementAntitone` | public/type_templates/blockadelabsskybox.js:210-211 | For non-negative depths, a larger depth never gives a larger factor. |
| `DepthField.ClampIndex` | public/type_templates/blockadelabsskybox.js:21-24 | A clamped grid coordinate lies in `[0, size - 1]`. It is the identity inside the grid and goes to the nearer edge outside it. |
| `DepthField.AxisNeighbours` | public/type_templates/blockadelabsskybox.js:14-24 | The two clamped neighbours satisfy `0 <= x1 <= x2 < size`. Either they are equal, or `x2 = x1 + 1` and they bracket the coordinate. They are equal exactly when `floor(c)` is outside `[0, size - 2]`. So every divisor `x2 - x1` that is used equals 1. |
| `DepthField.Interpolate` | public/type_templates/blockadelabsskybox.js:32-49 | One axis of the interpolation lies between its two inputs. It returns the first input when the axis is skipped or `c` is on the lower line, and the second input when `c` is on the upper line. |
| `DepthField.CellIndex` | public/type_templates/blockadelabsskybox.js:27-30 | The row-major offset `y * width + x` of an in-grid cell lies inside the grid, within row `y`. |
| `DepthField.BilinearSample` | public/type_templates/blockadelabsskybox.js:10-50 | Defined for every real `uv` when `width, height >= 1` and the grid has `width * height` cells: all four reads are in bounds and there is no division by zero. The result lies between the grid's minimum and maximum. |
| `DepthField.SampleAtPixel` | public/type_templates/blockadelabsskybox.js:11-49 | At pixel coordinates, the two row interpolations and the interpolation between them stay within the grid's minimum and maximum. |
| `DepthField.RowSample` | public/type_templates/blockadelabsskybox.js:26-44 | The interpolation along `x` on one clamped grid row (`r1` on row `y1`, `r2` on row `y2`) reads in bounds and lies within the grid's minimum and maximum. |
| `DepthField.SampleOfUniformGrid` | public/type_templates/blockadelabsskybox.js:32-49 | A grid holding `c` in every cell samples to `c` at every `uv`. |
| `DepthField.SampleWithinBounds` | public/type_templates/blockadelabsskybox.js:10-50 | Any bounds on all grid cells also bound every sample. |
| `DepthField.PixelAtGridPoint` | public/type_templates/blockadelabsskybox.js:14-49 | At integer pixel coordinates `(i, j)` inside the grid, the sample is exactly cell `(i, j)`. |
| `DepthDecode.DepthOf` | public/type_templates/blockadelabsskybox.js:142-144 | A byte decodes to a depth in `[0, 10]`. Byte 0 and only byte 0 gives 0. Byte 255 and only byte 255 gives 10. |
| `DepthDecode.DepthOfMonotone` | public/type_templates/blockadelabsskybox.js:142-144 | A brighter red byte never decodes to a smaller depth. |
| `DepthDecode.DecodedDepth` | public/type_templates/blockadelabsskybox.js:134-145 | The decoded buffer has exactly `count` entries, each in `[0, 10]`. |
| `DepthDecode.DecodeReadsRedOnly` | public/type_templates/blockadelabsskybox.js:137-144 | Two images that agree on every red byte decode identically. The other three channels are ignored. |
| `DepthDecode.DecodedFullImage` | public/type_templates/blockadelabsskybox.js:134-145 | For an image of `4 * width * height` bytes, entry `j` is `data[4 * j] / 255 * 10`. |
| `DepthDecode.DecodeDepth` | public/type_templates/blockadelabsskybox.js:134-145 | The loop returns a fresh array of `width * height` entries. Entry `j` holds the depth of pixel `j`'s red byte if that byte exists and 0 otherwise. |
| `Stitching.FirstIndex` | public/type_templates/blockadelabsskybox.js:168-191 | The index the map yields for a vertex is the lowest-indexed vertex at the same position. |
| `Stitching.Stitched` | public/type_templates/blockadelabsskybox.js:167-193 | After the pass the UV buffer keeps its length. Every vertex carries the UV that the lowest-indexed vertex at its position had before the pass. |
| `Stitching.StitchedCoincident` | public/type_templates/blockadelabsskybox.js:166-193 | Any two vertices with identical positions end up with identical UVs. |
| `Stitching.StitchedKeepsFirst` | public/type_templates/blockadelabsskybox.js:189-191 | A vertex that is the first at its position keeps its own UV. |
| `Stitching.StitchedIdempotent` | public/type_templates/blockadelabsskybox.js:167-193 | Running the pass a second time changes nothing. |
| `Stitching.SeenLookup` | public/type_templates/blockadelabsskybox.js:183-191 | When the pass reaches vertex `i`: if `i`'s position is already in the map, the stored index is earlier than `i` and is `i`'s lowest-indexed vertex at that position; otherwise `i` is the first vertex there. |
| `Stitching.Stitch` | public/type_templates/blockadelabsskybox.js:167-193 | The in-place pass leaves the UV array equal to `Stitched` of the old buffers. The position array is unchanged. |
| `SphereDisplacement.WrapUV` | public/type_templates/blockadelabsskybox.js:206-208 | The sampled coordinate has `u` in `[0, 1)` and `v` in `[0, 1]`. `u` is unchanged if already in `[0, 1)`. `v` becomes `1 - v` inside `[0, 1]`, 0 above the range and 1 below it. |
| `SphereDisplacement.WrapUVPeriodic` | public/type_templates/blockadelabsskybox.js:207 | Shifting `u` by any whole number samples the same point. |
| `SphereDisplacement.VertexFactor` | public/type_templates/blockadelabsskybox.js:206-211 | Each vertex's factor lies in `[min * scale, max * scale]`. |
| `SphereDisplacement.Displaced` | public/type_templates/blockadelabsskybox.js:205-215 | The displaced buffer keeps its length. Every vertex is its old position multiplied by that vertex's own factor. |
| `SphereDisplacement.ScaleVertex` | public/type_templates/blockadelabsskybox.js:212-214 | Reading vertex `i` out, scaling it and writing it back changes exactly entries `3i` to `3i + 2`. |
| `SphereDisplacement.Displace` | public/type_templates/blockadelabsskybox.js:205-215 | The in-place loop leaves the position array equal to `Displaced` of the old positions. |
| `SphereDisplacement.DisplacedAlongRay` | public/type_templates/blockadelabsskybox.js:212-214 | Every displaced vertex lies on the ray from the origin through its original position: the cross product is zero and the dot product is at least the original's squared length. Its squared distance grows by a factor between 1 and 10000. |
| `SphereDisplacement.DisplacedCoincident` | public/type_templates/blockadelabsskybox.js:205-215 | Vertices with equal positions and equal UVs are displaced to equal points. |
| `SphereDisplacement.DisplacedUniform` | public/type_templates/blockadelabsskybox.js:205-215 | On a constant grid `c`, every vertex is scaled by the one factor `Displacement(c)`. |
| `Winding.ReversedTriangles` | public/type_templates/blockadelabsskybox.js:217-224 | Reversing keeps the length of the index buffer. |
| `Winding.ReversedAt` | public/type_templates/blockadelabsskybox.js:218-223 | Output triangle `t` is exactly `(c, b, a)` where input triangle `t` was `(a, b, c)`. |
| `Winding.ReversedInvolution` | public/type_templates/blockadelabsskybox.js:217-224 | Reversing twice restores the original index buffer. |
| `Winding.ReversedPermutation` | public/type_templates/blockadelabsskybox.js:217-224 | Reversal is a permutation: every vertex index occurs as often as before. |
| `Winding.ReverseWinding` | public/type_templates/blockadelabsskybox.js:217-224 | The in-place loop leaves the index array equal to `ReversedTriangles` of the old one. |
| `Skybox.BuildMesh` | public/type_templates/blockadelabsskybox.js:134-224 | Running decode, stitch, displace and reverse in source order gives the composed result: a fresh depth buffer equal to `DecodedDepth`, UVs equal to `Stitched`, positions equal to `Displaced` by the stitched UVs, and indices equal to `ReversedTriangles`. |
| `Skybox.SeamsStayClosed` | public/type_templates/blockadelabsskybox.js:166-215 | After stitching, vertices that shared a position still share one after displacement, whatever the depth grid. The displaced sphere has no cracks at its seam or poles. |
| `Skybox.UniformImageDecodes` | public/type_templates/blockadelabsskybox.js:134-145 | An image with one red value everywhere decodes to one depth everywhere. |
| `Skybox.UniformImageScales` | public/type_templates/blockadelabsskybox.js:134-215 | An image with one red value everywhere scales every vertex by the same factor. |
| `Skybox.WhiteImageKeepsSphere` | public/type_templates/blockadelabsskybox.js:134-215 | A white image (depth 10) leaves the position buffer exactly as it was. |
| `Skybox.BlackImageFarthest` | public/type_templates/blockadelabsskybox.js:134-215 | A black image (depth 0, so `+Infinity` before the clamp) scales every vertex by 100. |
| `Skybox.MidGreyScalesByFive` | public/type_templates/blockadelabsskybox.js:134-215 | A uniform red byte of 51 decodes to depth 2, so every vertex is scaled by 5. |

## Left out

- Floating point:
  - JavaScript doubles and the `Float32Array` buffers are modelled as exact reals, so rounding is not modelled. This includes the single-precision rounding of decoded depths and displaced positions.
  - Negative zero, NaN and infinities are not modelled. The one infinity that ordinary inputs can reach, `scale / 0`, is written out as its own branch of `Numeric.Displacement`.
- `Stitching.Stitch`: the map key is the string `` `${x},${y},${z}` ``, modelled as exact equality of the three coordinates. The string also treats `0` and `-0` as the same key, and NaN as equal to itself. Neither case exists with exact reals.
- `Stitching.Stitch`, `SphereDisplacement.Displace`, `Skybox.BuildMesh`: these require that `positions` has a length divisible by 3 and that `uvs` has exactly two entries per vertex. They also require that the two buffers are distinct arrays. three.js sphere geometry always satisfies these requirements. A malformed buffer in JavaScript would read `undefined` and write NaN, and that behaviour is not modelled.
- `Winding.ReverseWinding`: it requires that the index count is a multiple of 3. Otherwise JavaScript would run one partial iteration over `undefined` entries.
- `DepthField.BilinearSample`, `SphereDisplacement.VertexFactor`, `SphereDisplacement.Displace`, `Skybox.BuildMesh`: these require `width, height >= 1` and a grid of exactly `width * height` cells. That is the buffer the decode step allocates. On an empty grid JavaScript reads `undefined`; `scale / depth` then yields NaN, which is written into the vertex.
- Fetching the assets, JSON parsing, `createImageBitmap` and the canvas `getImageData` read (lines 82-133) are not modelled. The model starts from a given sequence of RGBA bytes and given image dimensions.
- Building the base sphere with `THREE.SphereBufferGeometry` (line 161) is not modelled. The position, UV and index buffers are arbitrary inputs.
- Not modelled because they are rendering and GPU code:
  - the texture setup (lines 155-157);
  - the shader material and its GLSL shaders with the dynamic-depth mix (lines 225-263).
- Not modelled because they are callbacks into the physics engine: the physics enabling and disabling, the `componentsupdate` listener and the cleanup (lines 265-359).
- The hit-map, portal and spawn code (lines 361-568) is not modelled because it is entirely commented out in the source.
- The shared scratch objects `localVector` and `localVector2D` are replaced by local values. Only their contents matter, and they never alias the buffers.
- The other template files (`dance.js`, `loreitem.js`) and `types/blockadelabsskybox.js` are not part of this model.
