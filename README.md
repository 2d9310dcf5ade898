# unda core, modelled in Dafny

unda renders a room with marching cubes, classifies the cube-face image
patches it captures, and turns the classifications into per-surface
acoustic absorption coefficients for an image-source room simulation.
This project models the deterministic core of that pipeline and proves
what it computes:

- **Per-face absorption aggregation** (`absorption.dfy`, from
  `unda/classifier/calculate_absorption.py`). The classified patch
  records are filtered by confidence, bucketed by face in the fixed wall
  order, truncated to `T` tiles, padded with all-ones tiles, averaged
  with the script's weights and clipped into `[0.001, 0.9]`. The 6×6
  matrix is written into the configuration, which is a `map` from keys
  to JSON values.
- **Vector marching cubes** (`vector_marching_cubes.dfy`, `polygonise.dfy`,
  `lattice.dfy`, from `VectorMarchingCubes.cpp/.h`). This covers the
  row-major lattice, the cube lattice of sample positions, the sampling
  of the scalar field against mesh bounding boxes, and the 8-bit cube
  index. It also covers vertex interpolation, the triangle walk over
  `triTable`, the face-patch masks with the patch counter and file
  names, the renderer setters, and the worker that appends three
  vertices per triangle.
- **Template marching cubes** (`cube_lattice_field.dfy`, from
  `MarchingCubes.hpp`). This is the cube lattice scalar field with its
  flipped corner table, the "less than" cube index, and
  `computeVertexData` with its texture coordinates.
- **DSP kernels** (`dsp.dfy`, from `DSP.h`/`DSP.cpp`): direct
  convolution, peak normalisation in place and as a copy, the all-pass
  and comb filters, channel interleaving, and the `Filter` error codes,
  tap copy and convolution.
- **Acoustic conversions** (`acoustics.dfy`, from `Acoustics.h`): mean
  free path, alpha to beta, and the material catalogue.
- **Pixel buffers** (`texture.dfy`, from `Texture.cpp`): patch
  rectangle checks, the row-major patch copy with its running colour
  mean, the solid-colour fill, and the crop or black-pad of a patch onto
  a square cube face.
- **Generators** (`primitives.dfy`, `terrain.dfy`): the UV sphere's
  vertex grid and index buffer, and the 30×30×30 height-map voxel field.
- **File-name stems** (`utils.dfy`, from `Utils.cpp`).

Modelling conventions:

- `float` and `double` are `real`. Pixel bytes are `Geometry.Byte`, an `int` in `0..255`. The marching-cubes cube index and corner masks are `bv8`.
- `sqrt` is a parameter constrained by `IsSqrt` (non-negative root with
  `r * r == x`). Trigonometry is a `Trig` parameter.
- Bounding-box collision and triangle normals are function parameters.
- `edgeTable` and `triTable` are an abstract `Tables` value with the
  shape the triangle walk relies on (`WellFormedTables`).
- The helper modules are `Wrappers` (Option/Result), `RealArith`,
  `RowMajor` (two-level row-major indices) and `Geometry`.

The weighted average follows the script, not its stated intent. The
script pads `T − k` all-ones tiles and weights real tiles by `k/T` and
padding by `(T−k)/T`. `np.average` then divides by the weight sum, so
the band value is `(k·s + (T−k)²)/(k² + (T−k)²)`, where `s` is the band
sum of the `k` real tiles. That differs from the plain blend
`(k/T)·m + (T−k)/T`; `Absorption.BlendVersusLinearBlend` shows exactly
when the two agree.

## Model

| member | source | states |
|---|---|---|
| Absorption.Confident | unda/classifier/calculate_absorption.py:13-14 | a row is kept exactly when it is a row of the input with confidence strictly above the threshold; never more rows than given; six-band rows stay six-band |
| Absorption.FacePatches | unda/classifier/calculate_absorption.py:22-23 | the coefficient rows of one face, never more than the records, each with six bands; every record on the face contributes its coefficients, and every row kept comes from a record on the face |
| Absorption.FacePatchesSingle | unda/classifier/calculate_absorption.py:22-23 | one record contributes its coefficients exactly when it lies on the face; with `FacePatchesConcat` this fixes the file order of the rows kept |
| Absorption.Truncate | unda/classifier/calculate_absorption.py:24-25 | keeps `min(k, T)` tiles and the result is a prefix of the face's tiles in file order |
| Absorption.Average | unda/classifier/calculate_absorption.py:33 | the weighted average over the tile axis has six bands (defined when the weight sum is non-zero) |
| Absorption.PadTiles | unda/classifier/calculate_absorption.py:27-32 | the tile block always has exactly `T` rows |
| Absorption.Weights | unda/classifier/calculate_absorption.py:29-31 | there are exactly `T` weights |
| Absorption.FaceRow | unda/classifier/calculate_absorption.py:21-33 | a face row has six bands |
| Absorption.AbsorptionMatrix | unda/classifier/calculate_absorption.py:18-33 | six rows in wall order, each with six bands |
| Absorption.Clip | unda/classifier/calculate_absorption.py:38 | `np.clip` of one value lies in `[0.001, 0.9]`, leaves a value already in range unchanged, and is the point of the interval nearest to the input |
| Absorption.ClipRow | unda/classifier/calculate_absorption.py:38 | a clipped row keeps its length, clips each entry, has every entry in `[0.001, 0.9]`, and is unchanged when it was already in range |
| Absorption.ClipMatrix | unda/classifier/calculate_absorption.py:38 | a clipped matrix keeps its shape, has every entry in `[0.001, 0.9]`, and is unchanged when it was already in range |
| Absorption.ClipMatrixIdempotent | unda/classifier/calculate_absorption.py:38 | clipping twice equals clipping once |
| Absorption.SurfaceMatrix | unda/classifier/calculate_absorption.py:14-38 | the written matrix is 6×6 and every entry lies in `[0.001, 0.9]` |
| Absorption.WeightSumPositive | unda/classifier/calculate_absorption.py:29-33 | the weights sum to `(k² + (T−k)²)/T`, which is positive, so `np.average` never divides by zero when `T ≥ 1` |
| Absorption.PaddedAverageBand | unda/classifier/calculate_absorption.py:27-33 | band `b` of the padded weighted average is `(k·s + (T−k)²)/(k² + (T−k)²)`, with `s` the band sum of the real tiles |
| Absorption.FaceRowClosedForm | unda/classifier/calculate_absorption.py:21-33 | each face row band equals that closed form for the face's truncated bucket |
| Absorption.EmptyFaceIsReflective | unda/classifier/calculate_absorption.py:27-33 | a face with no surviving rows gets all ones before clipping |
| Absorption.EmptyFaceClipsToUpperBound | unda/classifier/calculate_absorption.py:27-38 | such a face ends at 0.9 in every band after clipping |
| Absorption.FullFaceIsPlainMean | unda/classifier/calculate_absorption.py:29-33 | with `k = T` rows the face row is the plain per-band mean of those rows |
| Absorption.FaceRowIsConvexCombination | unda/classifier/calculate_absorption.py:29-33 | for `k ≥ 1` the band value is `λ·m + (1−λ)·1` with `λ = k²/(k² + (T−k)²)` in `(0, 1]` and `m` the mean |
| Absorption.FaceRowWithinUnit | unda/classifier/calculate_absorption.py:29-33 | a band sum in `[0, k]` (coefficients in `[0, 1]`) gives a band value in `[0, 1]` |
| Absorption.BlendVersusLinearBlend | unda/classifier/calculate_absorption.py:29-33 | the normalised average equals `(k/T)·m + (T−k)/T` exactly when `k = T`, `2k = T` or `m = 1` |
| Absorption.BlendExample | unda/classifier/calculate_absorption.py:29-33 | one row of three with mean 0.1 gives 0.82, where the plain blend gives 0.7 |
| Absorption.ThresholdMonotone | unda/classifier/calculate_absorption.py:14-22 | raising the confidence threshold never enlarges any face's bucket |
| Absorption.BucketOfFilledPrefix | unda/classifier/calculate_absorption.py:24-25 | once a prefix of the records fills a face's `T` tiles, the bucket is that prefix's first `T` rows whatever follows |
| Absorption.LaterRowIrrelevant | unda/classifier/calculate_absorption.py:17-33 | replacing a record after a face's first `T` surviving rows leaves that face's output row unchanged |
| Absorption.DropOtherFaceRow | unda/classifier/calculate_absorption.py:22 | a record of another face does not change a face's patches |
| Absorption.SameBucketsSameMatrix | unda/classifier/calculate_absorption.py:21-33 | the matrix depends only on the six buckets |
| Absorption.NonWallRowIrrelevant | unda/classifier/calculate_absorption.py:5-33 | a record whose face is none of the six walls affects no output entry |
| Absorption.FillWeights | unda/classifier/calculate_absorption.py:29-31 | the weight array loop fills exactly the `Weights` sequence |
| Absorption.FillTiles | unda/classifier/calculate_absorption.py:27-32 | the tile array holds the face's rows followed by all-ones tiles |
| Absorption.WallRow | unda/classifier/calculate_absorption.py:22-33 | one iteration of the wall loop computes `FaceRow` |
| Absorption.SurfaceAbsorption | unda/classifier/calculate_absorption.py:18-38 | the wall loop and the clip produce `SurfaceMatrix` |
| Absorption.TrimLeft | unda/classifier/calculate_absorption.py:9 | `int()` strips leading whitespace: the result is a suffix of the input, only whitespace is removed, and it does not start with whitespace |
| Absorption.TrimRight | unda/classifier/calculate_absorption.py:9 | `int()` strips trailing whitespace: the result is a prefix of the input, only whitespace is removed, and it does not end with whitespace |
| Absorption.DropUnderscores | unda/classifier/calculate_absorption.py:9 | the digit separators of an integer literal are dropped, leaving only digits |
| Absorption.GroupsChars | unda/classifier/calculate_absorption.py:9 | a literal body holds only digits and underscores and ends in a digit |
| Absorption.ParseSigned | unda/classifier/calculate_absorption.py:9 | an accepted literal ends in a digit; a negative value needs a leading minus, and a leading minus never gives a positive value |
| Absorption.UnsignedGroups | unda/classifier/calculate_absorption.py:9 | an unsigned literal body reads as its value |
| Absorption.NegatedGroups | unda/classifier/calculate_absorption.py:9 | a minus sign negates the value of the body after it |
| Absorption.PlusGroups | unda/classifier/calculate_absorption.py:9 | a plus sign leaves the value of the body after it |
| Absorption.ParseIntLiteral | unda/classifier/calculate_absorption.py:9 | `int()` of a string accepts only a signed literal with whitespace around it, and the value is that literal's |
| Absorption.StripBounds | unda/classifier/calculate_absorption.py:9 | the stripped string is the part of the input between a whitespace prefix and a whitespace suffix |
| Absorption.IntToString | unda/classifier/calculate_absorption.py:9 | `str(n)` is non-empty and has no whitespace at either end |
| Absorption.DigitsAreGroups | unda/classifier/calculate_absorption.py:9 | a plain run of digits is a valid literal body worth its decimal reading |
| Absorption.ParseSignedDigits | unda/classifier/calculate_absorption.py:9 | digits, bare or after a minus sign, read as their value or its negation |
| Absorption.ParseSignedIntToString | unda/classifier/calculate_absorption.py:9 | reading `str(n)` gives `n` back |
| Absorption.StripPadded | unda/classifier/calculate_absorption.py:9 | stripping whitespace from a padded literal gives the literal |
| Absorption.ParseIntLiteralBare | unda/classifier/calculate_absorption.py:9 | a literal without whitespace at its ends is read as it stands |
| Absorption.IntLiteralPadded | unda/classifier/calculate_absorption.py:9 | `int(' ' + str(n) + ' ')` is `n` for any whitespace padding |
| Absorption.IntLiteralUnderscore | unda/classifier/calculate_absorption.py:9 | `int('1_2')` is 12 |
| Absorption.IntLiteralSigned | unda/classifier/calculate_absorption.py:9 | `int(' +12 ')` is 12 |
| Absorption.IntLiteralDoubleUnderscore | unda/classifier/calculate_absorption.py:9 | `int('1__2')` raises |
| Absorption.IntLiteralDecimalPoint | unda/classifier/calculate_absorption.py:9 | `int('12.0')` raises |
| Absorption.IntLiteralBlank | unda/classifier/calculate_absorption.py:9 | `int('  ')` raises |
| Absorption.IntOfJson | unda/classifier/calculate_absorption.py:9 | `int()` of a JSON value: integers unchanged, booleans 0/1, a real to an integer less than one away (its floor when non-negative), a string read as an integer literal, and `null`, lists and objects fail |
| Absorption.Resolution | unda/classifier/calculate_absorption.py:9 | a resolution is found only under an existing `GeometryReduction` object |
| Absorption.ResolutionNumberOrString | unda/classifier/calculate_absorption.py:9 | a resolution written as the number `n`, or as a string holding `n` with whitespace around it, is read as `n` |
| Absorption.MatrixJson | unda/classifier/calculate_absorption.py:39 | the matrix becomes a JSON list of lists with the same shape and entries |
| Absorption.CalculateAbsorption | unda/classifier/calculate_absorption.py:9-42 | a missing or non-integer resolution, a negative one, zero, or a missing `IR` section each give their own error; otherwise only `IR.SurfaceAbsorption` changes, and every other key is written back unchanged |
| Acoustics.MeanFreePath | unda/src/acoustics/Acoustics.h:18-20 | `l · S = 4 · V` |
| Acoustics.AlphaToBeta | unda/src/acoustics/Acoustics.h:21-23 | `β ≥ 0` and `β² = 1 − α` for `α ≤ 1` |
| Acoustics.AlphaToBetaRange | unda/src/acoustics/Acoustics.h:21-23 | `α ∈ [0, 1]` gives `β ∈ [0, 1]`; `α = 0` gives 1 and `α = 1` gives 0 |
| Acoustics.AlphaToBetaAntitone | unda/src/acoustics/Acoustics.h:21-23 | more absorption never gives a larger reflection coefficient |
| Acoustics.Material.constructor | unda/src/acoustics/Acoustics.h:27-30 | stores the label and the six coefficients |
| Acoustics.Material.GetBetaCoefficients | unda/src/acoustics/Acoustics.h:34-38 | six values with `beta[b] = sqrt(1 − alpha[b])`; the coefficients are untouched |
| Acoustics.CatalogueIsPhysical | unda/src/acoustics/Acoustics.h:40-54 | every catalogue material has six coefficients in `[0, 1]`, whose betas lie in `[0, 1]` |
| Dsp.ConvBoundsExact | unda/src/acoustics/DSP.h:31-36 | the sum over `j` from `max(0, i−ng+1)` to `min(i, nf−1)` equals the sum over every `j` with both `f[j]` and `g[i−j]` in range |
| Dsp.Convolution | unda/src/acoustics/DSP.h:27-30 | the result has `nf + ng − 1` samples |
| Dsp.OneTapScales | unda/src/acoustics/DSP.h:31-36 | convolving with `[c]` gives `c · f` |
| Dsp.Convolve | unda/src/acoustics/DSP.h:26-39 | the nested accumulation loop computes `Convolution` |
| Dsp.Peak | unda/src/acoustics/DSP.cpp:8-12 | the peak bounds every absolute sample and is attained (0 for an empty signal) |
| Dsp.PeakZeroIffSilent | unda/src/acoustics/DSP.cpp:8-12 | the peak is 0 exactly when every sample is 0 |
| Dsp.Normalised | unda/src/acoustics/DSP.cpp:13-15 | normalising keeps the length |
| Dsp.NormalisedPeakIsOne | unda/src/acoustics/DSP.cpp:6-16 | after normalising a signal with a non-zero sample, the peak is 1 |
| Dsp.PeakOf | unda/src/acoustics/DSP.cpp:8-12 | the scan loop finds `Peak` |
| Dsp.NormaliseSignal | unda/src/acoustics/DSP.cpp:6-16 | the buffer becomes `Normalised` of its old contents |
| Dsp.NormalisedCopy | unda/src/acoustics/DSP.cpp:18-29 | the copying overload returns the same values and leaves its input alone |
| Dsp.RoundNonNeg | unda/src/acoustics/DSP.cpp:38 | `std::round` of a non-negative value is within one half of it |
| Dsp.DelaySamplesNearest | unda/src/acoustics/DSP.cpp:57 | the delay in samples is the nearest integer to `delayMs / (fs / 1000)` |
| Dsp.AllPassTestsAgree | unda/src/acoustics/DSP.cpp:44-47 | the two feedback conditions agree on integer indices |
| Dsp.AllPassResponse | unda/src/acoustics/DSP.cpp:42-49 | with a delay of at least one sample the output equals the input; with delay 0 a sample after the first is scaled by `1 − decay²` |
| Dsp.AllPassFilter | unda/src/acoustics/DSP.cpp:35-52 | same length, and every output sample is the recurrence's value |
| Dsp.CombImpulseResponse | unda/src/acoustics/DSP.cpp:58-62 | an impulse gives `decay^(m/d)` at multiples of the delay and 0 elsewhere |
| Dsp.CombFilter | unda/src/acoustics/DSP.cpp:54-65 | same length, and every output sample is the recurrence's value: the input before the delay, then `in[m] + decay · out[m−d]` |
| Dsp.CombWithoutDecay | unda/src/acoustics/DSP.cpp:58-62 | zero decay leaves the signal unchanged |
| Dsp.Deinterleave | unda/src/acoustics/DSP.cpp:76-83 | `raw[i · channels + j] = audioChannels[j][i]` for every frame and channel |
| Dsp.WriteFrame | unda/src/acoustics/DSP.cpp:78-82 | one frame writes the next `channels` samples and keeps the earlier ones |
| Dsp.Interleave | unda/src/acoustics/DSP.cpp:72-83 | the buffer is the channels interleaved frame by frame |
| Dsp.LowHighAccepts | unda/src/acoustics/DSP.cpp:106-129 | the low/high-pass constructor leaves the flag 0 exactly when `Fs > 0`, `0 < Fx < Fs/2` and the type is LPF, HPF or ALLPASS |
| Dsp.LowHighNeverRateError | unda/src/acoustics/DSP.cpp:112-129 | the flag always ends as 0, −2 or −5, and as −2 or −5 when `Fs ≤ 0`: the rate error −1 is always overwritten |
| Dsp.BandPassAccepts | unda/src/acoustics/DSP.cpp:135-151 | the band-pass flag is 0 exactly when `Fs > 0`, both cut-offs lie in `(0, Fs/2)` and the type is BPF; otherwise it is −12, −13 or −16 |
| Dsp.BandPassAllowsInvertedBand | unda/src/acoustics/DSP.cpp:142-143 | a lower cut-off above the upper one is accepted |
| Dsp.Filter.SetError | unda/src/acoustics/DSP.h:74 | the flag becomes `x` and nothing else changes |
| Dsp.Filter.LowHigh | unda/src/acoustics/DSP.cpp:106-132 | the flag, type, tap count, rate and normalised cut-off of the low/high-pass constructor |
| Dsp.Filter.BandPass | unda/src/acoustics/DSP.cpp:135-154 | the same for the band-pass constructor, with both cut-offs |
| Dsp.Filter.GetTaps | unda/src/acoustics/DSP.h:54-57 | all `nTaps` taps are copied when the flag is 0, and nothing is written otherwise |
| Dsp.Filter.ConvolveToSignal | unda/src/acoustics/DSP.cpp:161-181 | the new signal is the full convolution with the taps, `nTaps − 1` samples longer |
| Lattice.LinearIndexBounds | unda/src/rendering/VectorMarchingCubes.h:89-91 | an in-range `(i, j, k)` lands in `[0, sizeX·sizeY·sizeZ)` |
| Lattice.DecomposeLinear | unda/src/rendering/VectorMarchingCubes.h:89-91 | the flat index can be decoded back to `(i, j, k)` |
| Lattice.LinearIndexInjective | unda/src/rendering/VectorMarchingCubes.h:89-91 | distinct in-range indices have distinct flat positions |
| Lattice.DecomposeCovers | unda/src/rendering/VectorMarchingCubes.h:89-91 | every buffer position is the flat index of an in-range `(i, j, k)` |
| Lattice.Lattice3D.constructor | unda/src/rendering/VectorMarchingCubes.h:66-73 | `sizeX·sizeY·sizeZ` copies of the default element |
| Lattice.Lattice3D.SetValue | unda/src/rendering/VectorMarchingCubes.h:82 | writing through `getValue(i, j, k)` changes that one element |
| Lattice.SameElement | unda/src/rendering/VectorMarchingCubes.h:78-83 | `getValue`, `operator[]` on `{i, j, k}` and on the flat index address the same element, and a write there leaves every other element alone |
| Lattice.LatticeSymmetric | unda/src/rendering/MarchingCubes.hpp:139-155 | points `i` and `size−1−i` average to the centre, and neighbours are `spacing` apart |
| Lattice.FillLatticeRow | unda/src/rendering/VectorMarchingCubes.cpp:36-44 | one `k` row gets its sample positions and earlier rows keep theirs |
| Lattice.ComputeLatticeVertices | unda/src/rendering/VectorMarchingCubes.cpp:25-47 | every element becomes its sample position |
| Lattice.NewCubeLattice | unda/src/rendering/VectorMarchingCubes.h:97-103 | `(i, j, k)` holds `i·spacing − spacing·(sizeX−1)/2 + centre.x` and likewise on y and z |
| Polygonise.TriangleCount | unda/src/rendering/VectorMarchingCubes.cpp:300-307 | a `triTable` row yields at most five triangles |
| Polygonise.TriangleCountIsTerminator | unda/src/rendering/VectorMarchingCubes.cpp:301 | the entry after the counted triples is −1 and every counted entry is an edge 0..11 |
| Polygonise.TrianglesFrom | unda/src/rendering/VectorMarchingCubes.cpp:300-307 | one triangle per counted triple |
| Polygonise.TrianglesFromAt | unda/src/rendering/VectorMarchingCubes.cpp:302-304 | triangle `q` takes `vertlist` at entries `3q`, `3q+1` and `3q+2` |
| Polygonise.PlaceTriangle | unda/src/rendering/VectorMarchingCubes.cpp:302-305 | slot `n` gets the triangle and earlier slots keep theirs |
| Polygonise.CollectTriangles | unda/src/rendering/VectorMarchingCubes.cpp:300-307 | the loop returns the triangle count and fills that many slots with `TrianglesFrom` |
| Polygonise.CornerBitsSingle | unda/src/rendering/VectorMarchingCubes.h:169-178 | corner `c`'s value is the single bit `1 << c`, and distinct corners share no bit |
| Polygonise.CubeIndexBits | unda/src/rendering/VectorMarchingCubes.cpp:250-257 | bit `c` of the cube index is set exactly when corner `c` is flagged |
| Polygonise.CubeIndexInjective | unda/src/rendering/VectorMarchingCubes.cpp:250-257 | different corner flags give different cube indices |
| Polygonise.CubeIndex | unda/src/rendering/VectorMarchingCubes.cpp:247-257 | the `|=` sequence builds the cube index with exactly the flagged bits |
| Polygonise.EdgeEndsInCube | unda/src/rendering/VectorMarchingCubes.cpp:274-297 | every edge joins two distinct corners 0..7 |
| Polygonise.NoEdgeCut | unda/src/rendering/VectorMarchingCubes.cpp:259-260 | a zero `edgeTable` entry cuts no edge |
| Polygonise.InterpolateIsLerp | unda/src/rendering/VectorMarchingCubes.cpp:434-446 | the interpolated vertex is `p1 + μ·(p2 − p1)` for the edge weight `μ`, so it lies on the line through the edge |
| Polygonise.WeightInUnit | unda/src/rendering/VectorMarchingCubes.cpp:434-440 | an iso level between the corner values gives `μ ∈ [0, 1]` |
| Polygonise.WeightReachesIsoLevel | unda/src/rendering/VectorMarchingCubes.cpp:434-440 | with distinct corner values, the interpolated value is within `1e-5` of the iso level, and equal to it away from the early exits |
| Polygonise.VertList | unda/src/rendering/VectorMarchingCubes.cpp:273-297 | twelve edge points |
| Polygonise.CellTriangles | unda/src/rendering/VectorMarchingCubes.cpp:259-307 | at most five triangles, and none for a zero `edgeTable` entry |
| Polygonise.MeshVertices | unda/src/rendering/VectorMarchingCubes.cpp:214-237 | three vertices per triangle |
| Polygonise.MeshVerticesAt | unda/src/rendering/VectorMarchingCubes.cpp:219-233 | vertices `3m`, `3m+1` and `3m+2` are triangle `m`'s corners `a`, `b` and `c`, with its normal |
| Polygonise.MeshVerticesAppend | unda/src/rendering/VectorMarchingCubes.cpp:214-237 | the vertices of two triangle lists are the concatenation of their vertices |
| Polygonise.AppendVertices | unda/src/rendering/VectorMarchingCubes.cpp:214-237 | the append loop extends the buffer by exactly `MeshVertices` |
| Polygonise.BlockCellsMembers | unda/src/rendering/VectorMarchingCubes.cpp:207-211 | the loop nest visits exactly the cells with `i < iEnd`, `jStart ≤ j < jEnd` and `k < kEnd` |
| VectorMarchingCubes.CellRenderer.constructor | unda/src/rendering/VectorMarchingCubes.h:52-55 | the field initialisers: a zero volume, position at the origin, target (1, 1, 1) and up (0, 1, 0) |
| VectorMarchingCubes.CellRenderer.SetOrthoVolume | unda/src/rendering/VectorMarchingCubes.h:37-39 | left, right, bottom, top and zNear change; zFar keeps its old value because the argument is discarded |
| VectorMarchingCubes.CellRenderer.SetCameraTarget | unda/src/rendering/VectorMarchingCubes.h:40 | only the target changes |
| VectorMarchingCubes.CellRenderer.SetCameraPosition | unda/src/rendering/VectorMarchingCubes.h:41 | only the position changes |
| VectorMarchingCubes.CornersOfCell | unda/src/rendering/VectorMarchingCubes.cpp:383-418 | corners 0..7 are eight distinct points of `{i, i+1}×{j, j+1}×{k, k+1}`, with `j` for corners 0–3 and `j+1` for 4–7 |
| VectorMarchingCubes.CornerOutOfRange | unda/src/rendering/VectorMarchingCubes.cpp:415-416 | any other corner number gives `(0, 0, 0)` |
| VectorMarchingCubes.EdgesAreCellEdges | unda/src/rendering/VectorMarchingCubes.cpp:274-297 | each of the twelve edges joins two corners one lattice step apart |
| VectorMarchingCubes.CornerInLattice | unda/src/rendering/VectorMarchingCubes.cpp:399-414 | the corners of a cell below `size − 1` lie inside the lattice |
| VectorMarchingCubes.FaceMasksDistinct | unda/src/rendering/VectorMarchingCubes.cpp:263-268 | the six face masks are 51, 204, 153, 102, 15 and 240, which are pairwise distinct |
| VectorMarchingCubes.FaceMaskCorners | unda/src/rendering/VectorMarchingCubes.cpp:263-268 | each mask holds exactly the corners on one side of the cell |
| VectorMarchingCubes.AtMostOnePatch | unda/src/rendering/VectorMarchingCubes.cpp:262-270 | a cube index requests at most one patch, and one exactly when it equals a face mask |
| Decimal.NatToString | unda/src/rendering/VectorMarchingCubes.cpp:335 | `std::to_string` of a counter is a non-empty string of digits |
| Decimal.ParseNatToString | unda/src/rendering/VectorMarchingCubes.cpp:335 | reading the digits back gives the counter |
| VectorMarchingCubes.PatchCounterOfName | unda/src/rendering/VectorMarchingCubes.cpp:335-364 | the counter can be recovered from every face's patch file name |
| VectorMarchingCubes.PatchFileNamesDistinct | unda/src/rendering/VectorMarchingCubes.cpp:330-366 | different counters give different file names, whatever the faces |
| VectorMarchingCubes.CellCubeIndexBits | unda/src/rendering/VectorMarchingCubes.cpp:250-257 | bit `c` is set exactly when corner `c`'s value is strictly above the iso level |
| VectorMarchingCubes.CellTrianglesAt | unda/src/rendering/VectorMarchingCubes.cpp:259-307 | a cell yields at most five triangles, and none when its `edgeTable` entry is 0 |
| VectorMarchingCubes.CellPatches | unda/src/rendering/VectorMarchingCubes.cpp:259-270 | at most one patch; none for a zero `edgeTable` entry or with patches off; one only for a face-mask cube index |
| VectorMarchingCubes.ConcatenatedMesh | unda/src/rendering/VectorMarchingCubes.cpp:213-237 | the vertices appended over the visited cells are the mesh vertices of their triangles in visit order |
| VectorMarchingCubes.VerticesOf | unda/src/rendering/VectorMarchingCubes.cpp:213-237 | three vertices per triangle over any list of cells, so the appended count is a multiple of 3 |
| VectorMarchingCubes.OutputBounds | unda/src/rendering/VectorMarchingCubes.cpp:213-214 | at most five triangles and one patch per visited cell |
| VectorMarchingCubes.NoPatchesWhenOff | unda/src/rendering/VectorMarchingCubes.cpp:262 | with patches off no patch is requested |
| VectorMarchingCubes.BlockInGrid | unda/src/rendering/VectorMarchingCubes.cpp:207-211 | every cell the worker visits lies inside the lattice |
| VectorMarchingCubes.FirstCollisionSpec | unda/src/rendering/VectorMarchingCubes.cpp:173-193 | the found mesh is the first whose box collides; none exactly when no mesh collides |
| VectorMarchingCubes.SampleCell | unda/src/rendering/VectorMarchingCubes.cpp:168-194 | the cell gets 1.0 and the first colliding mesh, or 0.0 and no mesh; with no meshes its mesh is left as it was |
| VectorMarchingCubes.FieldSampled | unda/src/rendering/VectorMarchingCubes.cpp:148-197 | after the loops, a cell with `indexStart ≤ j < indexEnd` is sampled and every other cell is unchanged |
| VectorMarchingCubes.SampleRow | unda/src/rendering/VectorMarchingCubes.cpp:152-195 | one `z` row of cells is sampled |
| VectorMarchingCubes.SampleSlice | unda/src/rendering/VectorMarchingCubes.cpp:150-196 | the `y` range of one `x` slice is sampled |
| VectorMarchingCubes.SampleBlock | unda/src/rendering/VectorMarchingCubes.cpp:148-197 | every `x` slice is sampled over the `y` range |
| VectorMarchingCubes.MarchingCubes.constructor | unda/src/rendering/VectorMarchingCubes.cpp:54-65 | default cells, the cube lattice of sample positions, no vertices, patches on, scale 0 and no patches yet |
| VectorMarchingCubes.MarchingCubes.SetGeneratePatches | unda/src/rendering/VectorMarchingCubes.h:138 | only the patch switch changes |
| VectorMarchingCubes.MarchingCubes.CellImagePatch | unda/src/rendering/VectorMarchingCubes.cpp:311-380 | the file name embeds the counter before the increment, the counter grows by one, and the camera and ortho volume are set for the face |
| VectorMarchingCubes.MarchingCubes.PolygoniseCell | unda/src/rendering/VectorMarchingCubes.cpp:245-308 | returns the cell's triangles and records the cell's patches, leaving the field and lattice unchanged |
| VectorMarchingCubes.MarchingCubes.ApplyPatchMasks | unda/src/rendering/VectorMarchingCubes.cpp:262-270 | the requested patches are `PatchesFor` the cube index |
| VectorMarchingCubes.MarchingCubes.MarchCell | unda/src/rendering/VectorMarchingCubes.cpp:213-237 | one cell appends its vertices and patches |
| VectorMarchingCubes.MarchingCubes.MarchNextCell | unda/src/rendering/VectorMarchingCubes.cpp:211-238 | one step of the `k` loop extends the row's output by one cell |
| VectorMarchingCubes.MarchingCubes.MarchRow | unda/src/rendering/VectorMarchingCubes.cpp:211-239 | one `k` row appends the row's vertices and patches in order |
| VectorMarchingCubes.MarchingCubes.MarchNextRow | unda/src/rendering/VectorMarchingCubes.cpp:209-239 | one step of the `j` loop extends the slice's output by one row |
| VectorMarchingCubes.MarchingCubes.MarchSlice | unda/src/rendering/VectorMarchingCubes.cpp:209-240 | one `i` slice appends its rows' output in order |
| VectorMarchingCubes.MarchingCubes.MarchNextSlice | unda/src/rendering/VectorMarchingCubes.cpp:207-240 | one step of the `i` loop extends the block's output by one slice |
| VectorMarchingCubes.MarchingCubes.MarchBlock | unda/src/rendering/VectorMarchingCubes.cpp:207-241 | the loop nest appends the output of every visited cell in order |
| VectorMarchingCubes.MarchingCubes.MarchingCubesWorker | unda/src/rendering/VectorMarchingCubes.cpp:201-242 | the worker appends, for the `j` range, every cell's vertices and patches in loop order |
| VectorMarchingCubes.MarchingCubes.ComputeMarchingCubes | unda/src/rendering/VectorMarchingCubes.cpp:97-110 | the vertices grow by exactly `VerticesOf` all cells (three per triangle) and the patches by `PatchesOf` all cells |
| VectorMarchingCubes.MarchingCubes.ScalarFieldFromMeshWorker | unda/src/rendering/VectorMarchingCubes.cpp:127-198 | cells with `indexStart ≤ j < indexEnd` are sampled and every other cell is unchanged |
| VectorMarchingCubes.MarchingCubes.ComputeScalarField | unda/src/rendering/VectorMarchingCubes.cpp:78-95 | the scale is taken from the model and every cell is sampled |
| CubeLatticeField.CornersOfCell | unda/src/rendering/MarchingCubes.hpp:302-337 | eight distinct corners of `{i, i+1}×{j, j+1}×{k, k+1}`, with `j` for corners 0–3 and `j+1` for 4–7 |
| CubeLatticeField.CornersMirrored | unda/src/rendering/MarchingCubes.hpp:314-331 | same `i` and `j` as the vector table, with `k` flipped within the cell |
| CubeLatticeField.CornerOutOfRange | unda/src/rendering/MarchingCubes.hpp:332-334 | any other corner number gives `(0, 0, 0)` |
| CubeLatticeField.CornerInLattice | unda/src/rendering/MarchingCubes.hpp:316-331 | the corners of a cell inside the field lie inside the lattice |
| CubeLatticeField.NewScalarField | unda/src/rendering/MarchingCubes.hpp:169-174 | the field values as given, and every lattice point at its sample position |
| CubeLatticeField.NewZeroScalarField | unda/src/rendering/MarchingCubes.hpp:167-168 | an all-zero field over the same lattice |
| CubeLatticeField.CellCubeIndexBits | unda/src/rendering/MarchingCubes.hpp:250-257 | bit `c` is set exactly when corner `c`'s value is strictly below the iso level |
| CubeLatticeField.PolygoniseCell | unda/src/rendering/MarchingCubes.hpp:246-299 | at most five triangles, equal to the cell's triangles, and zero for a zero `edgeTable` entry |
| CubeLatticeField.TexCoord | unda/src/rendering/MarchingCubes.hpp:190-195 | `index/(size−1)` lies in `[0, 1)` for every iterated cell |
| CubeLatticeField.MeshTexCoords | unda/src/rendering/MarchingCubes.hpp:204-229 | every vertex of a cell carries the cell's `u` and `v` |
| CubeLatticeField.VertexDataShape | unda/src/rendering/MarchingCubes.hpp:188-237 | three vertices per triangle, so the length is a multiple of 3, and every `u` and `v` lies in `[0, 1)` |
| CubeLatticeField.AllCellsInField | unda/src/rendering/MarchingCubes.hpp:188-193 | every iterated cell lies inside the field |
| CubeLatticeField.MarchCell | unda/src/rendering/MarchingCubes.hpp:197-234 | one cell appends that cell's vertices |
| CubeLatticeField.MarchNextCell | unda/src/rendering/MarchingCubes.hpp:193-235 | one step of the `k` loop extends the row's output by one cell |
| CubeLatticeField.MarchRow | unda/src/rendering/MarchingCubes.hpp:193-235 | one `k` row appends its cells' vertices in order |
| CubeLatticeField.MarchNextRow | unda/src/rendering/MarchingCubes.hpp:191-236 | one step of the `j` loop extends the slice's output by one row |
| CubeLatticeField.MarchSlice | unda/src/rendering/MarchingCubes.hpp:188-237 | one `i` slice, with `u` fixed for the slice, appends its rows in order |
| CubeLatticeField.MarchNextSlice | unda/src/rendering/MarchingCubes.hpp:188-237 | one step of the `i` loop extends the output by one slice |
| CubeLatticeField.ComputeVertexData | unda/src/rendering/MarchingCubes.hpp:176-240 | the result is `VertexData`: three vertices per triangle, with every `u` and `v` in `[0, 1)` |
| Textures.PixelInBuffer | unda/src/rendering/Texture.cpp:110 | an in-range pixel channel lies inside the buffer |
| Textures.PixelDecode | unda/src/rendering/Texture.cpp:71 | a patch byte offset decodes back to its row, column and channel |
| Textures.PatchRect | unda/src/rendering/Texture.cpp:34-49 | an accepted rectangle has `0 ≤ xMin < xMax ≤ width` and `0 ≤ yMin < yMax ≤ height` |
| Textures.PatchRectAccepts | unda/src/rendering/Texture.cpp:39-49 | acceptance is exactly the bound checks on the floored, swapped corners, and swapping the two UV corners changes nothing |
| Textures.PatchBytes | unda/src/rendering/Texture.cpp:51-56 | the patch has `(xMax−xMin)·(yMax−yMin)·3` bytes |
| Textures.PatchBytesAt | unda/src/rendering/Texture.cpp:59-73 | patch byte `(row, col, ch)` is texture byte `((row+yMin)·width + col+xMin)·channels + ch` |
| Textures.RunningMean | unda/src/rendering/Texture.cpp:58-70 | the halving colour mean stays in `[0, 255]` |
| Textures.RunningMeanZero | unda/src/rendering/Texture.cpp:68-69 | the mean ends at 0 exactly when the previous mean plus the last byte is at most 1 |
| Textures.BlackPatchRejected | unda/src/rendering/Texture.cpp:68-77 | an all-black patch has mean 0 and is rejected |
| Textures.TrailingBlackHalves | unda/src/rendering/Texture.cpp:68-69 | each trailing black byte halves the bound on the mean |
| Textures.TrailingBlackRejected | unda/src/rendering/Texture.cpp:68-77 | any patch that ends in eight black bytes has mean 0, whatever came before |
| Textures.SolidBytes | unda/src/rendering/Texture.cpp:126 | a solid texture has `width·height·4` bytes |
| Textures.SolidPixel | unda/src/rendering/Texture.cpp:127-132 | every pixel holds `(r, g, b, a)` in channel order |
| Textures.SolidFill | unda/src/rendering/Texture.cpp:126-132 | the fill loop produces `SolidBytes` |
| Textures.CopyRows | unda/src/rendering/Texture.cpp:59-74 | the row loop copies the whole patch and computes its running mean |
| Textures.CopyRow | unda/src/rendering/Texture.cpp:60-73 | one row extends the copied prefix and the mean over it |
| Textures.CopyPixel | unda/src/rendering/Texture.cpp:61-72 | one pixel's three channels extend the copied prefix and the mean |
| Textures.Texture.FromFile | unda/src/rendering/Texture.cpp:4-20 | RGBA channels always; loaded exactly when decoding succeeded, with the decoded size and pixels |
| Textures.Texture.Solid | unda/src/rendering/Texture.cpp:115-138 | an unloaded RGBA texture of the given size filled with the colour |
| Textures.Texture.PixelAt | unda/src/rendering/Texture.cpp:103-113 | the offset of `(x, y)` is `(y·width + x)·channels`, inside the buffer for an in-range pixel |
| Textures.Texture.CopyPatch | unda/src/rendering/Texture.cpp:51-74 | the copied buffer is `PatchBytes`, and the mean is its running mean when `nonBlack` is set |
| Textures.Texture.GeneratePatch | unda/src/rendering/Texture.cpp:28-101 | success exactly when an image is loaded, the rectangle is accepted, the mean is non-zero if required and the PNG is written; on failure the patch is untouched; on success it has the patch's size, 3 channels, `cubeMapFace` equal to its height, the copied bytes and this texture as parent |
| Textures.FaceBytes | unda/src/rendering/Texture.cpp:197-208 | a face has `faceSize²·3` bytes |
| Textures.FaceBytesAt | unda/src/rendering/Texture.cpp:200-210 | face pixel `(row, col)` is the patch pixel inside the patch and black outside |
| Textures.CubeMap.ApplyPatch | unda/src/rendering/Texture.cpp:189-218 | the square buffer is `FaceBytes` of the patch |
| Textures.CubeMap.FacePixel | unda/src/rendering/Texture.cpp:202-208 | one pixel extends the filled prefix of the face |
| Primitives.VertexGrid | unda/src/scene/Primitives.cpp:24-43 | the vertex list has `(resolution+1)²` entries |
| Primitives.VertexGridAt | unda/src/scene/Primitives.cpp:24-41 | vertex `longitude·(resolution+1) + latitude` is that grid point's vertex |
| Primitives.TextureCoordinatesInUnit | unda/src/scene/Primitives.cpp:34-35 | `u` and `v` lie in `[0, 1]` |
| Primitives.SphereNormalIsUnit | unda/src/scene/Primitives.cpp:37-39 | the normal has unit length |
| Primitives.RowIndicesLength | unda/src/scene/Primitives.cpp:52-65 | a row emits six indices per step, less three at the first and last step, and none when it takes no step |
| Primitives.SphereIndicesLength | unda/src/scene/Primitives.cpp:47-66 | the index list has `6·resolution·(resolution−1)` entries, and none for resolution 0 |
| Primitives.RowBaseBound | unda/src/scene/Primitives.cpp:49-50 | the largest index a row can reach is below `(resolution+1)²` |
| Primitives.StepIndicesBounded | unda/src/scene/Primitives.cpp:53-64 | every index of one step names an emitted vertex |
| Primitives.RowIndicesBounded | unda/src/scene/Primitives.cpp:49-64 | every index of a row names an emitted vertex |
| Primitives.SphereIndicesBounded | unda/src/scene/Primitives.cpp:47-66 | every emitted index is below `(resolution+1)²` |
| Primitives.CreateSphere | unda/src/scene/Primitives.cpp:16-68 | the vertex grid and the index buffer |
| Primitives.SphereVertices | unda/src/scene/Primitives.cpp:18-43 | the nested loops emit `VertexGrid` |
| Primitives.SphereIndexBuffer | unda/src/scene/Primitives.cpp:45-66 | the outer loop over latitudes emits `SphereIndices` for any resolution |
| Primitives.EmitRow | unda/src/scene/Primitives.cpp:48-65 | the inner loop with counters `c` and `n` appends exactly the row's `RowIndices` |
| Terrain.CoveredWhenNotWider | unda/src/scene/Terrain.cpp:20-23 | when the image is no wider than tall, every sampled pixel is inside it |
| Terrain.PixelInside | unda/src/scene/Terrain.cpp:23 | the sampled pixel index is below `width·height` |
| Terrain.CoordinateBelow | unda/src/scene/Terrain.cpp:20-21 | the scaled surface coordinate is below the image extent |
| Terrain.VoxelIsOccupancy | unda/src/scene/Terrain.cpp:26 | every voxel is 0.0 or 1.0 |
| Terrain.ColumnIsStack | unda/src/scene/Terrain.cpp:26 | an empty level has only empty levels above it |
| Terrain.GroundAndCeiling | unda/src/scene/Terrain.cpp:23-26 | level 0 is always filled and levels 7 and up are always empty |
| Terrain.VoxelIndexDecode | unda/src/scene/Terrain.cpp:26 | `i·900 + k·30 + j` is below 27000 and decodes back to `(i, j, k)` |
| Terrain.VoxelIndexInjective | unda/src/scene/Terrain.cpp:26 | distinct voxels have distinct indices |
| Terrain.VoxelIndexCover | unda/src/scene/Terrain.cpp:17-28 | every index is some voxel's, so every entry is written |
| Terrain.FillColumn | unda/src/scene/Terrain.cpp:25-27 | one column gets its levels and every other entry is unchanged |
| Terrain.HeightMapTerrain | unda/src/scene/Terrain.cpp:4-33 | 27000 entries, each the voxel value of the height map |
| Terrain.FieldAtVoxel | unda/src/scene/Terrain.cpp:17-28 | the entry at a voxel's index is that voxel's value |
| Utils.LastIndexOf | unda/src/utils/Utils.cpp:25 | no position exactly when the character is absent; otherwise the position of its last occurrence |
| Utils.StemFileName | unda/src/utils/Utils.cpp:23-28 | a prefix of the input: the input itself without a `'.'`, otherwise the part before the last `'.'` |
| Utils.StemShorterIffDot | unda/src/utils/Utils.cpp:25-27 | the stem is strictly shorter exactly when the input has a `'.'` |
| Utils.RemovedSuffixHasOneDot | unda/src/utils/Utils.cpp:25-27 | the removed suffix holds exactly one `'.'` |
| Utils.StemKeepsEarlierDots | unda/src/utils/Utils.cpp:25-27 | `"a.b.c"` becomes `"a.b"` |

## Left out

- File and configuration I/O: reading `conf.json` and `results.csv` and `json.dump` are replaced by a record sequence and a `map`. The face column is taken as a field of each record.
- The classifier (`classify_patches.py`) is not part of this model; its table is the input of the aggregation.
- `edgeTable` and `triTable` are not shown. Their contents are an abstract `Tables` value, with only the shape the triangle walk needs.
- OpenGL, shaders, framebuffers and windowing are left out. This covers `CellRenderer::update`, `render` and `writeImage`, `setTextureData`, the texture uploads, the `CubeMap` constructor's face loads, and `setModel`.
- Image decoding and PNG writing: the decoded image is a constructor parameter, and whether the PNG write succeeded is a parameter of `GeneratePatch`.
- Floating-point rounding: every `float` and `double` is a `real`, so the all-pass cancellation and the interpolation identities hold in exact arithmetic only.
- Dsp.NormalisedCutoff: a sample rate of 0 gives 0.0, where the source's floating-point division gives infinity or NaN.
- Absorption.IntOfJson: only ASCII whitespace and the digits 0-9 are read in a string; Python's `int()` also accepts other Unicode whitespace and decimal digits.
- The C++ `abs` used in `interpolateVertex` is taken as the absolute value of a `double`.
- Integer widths: `size_t` and `int` wrap-around is not modelled. Counters and indices are unbounded naturals.
- Threads and mutexes: only the sequential path is modelled, and the commented-out thread split is left out. The `_nThreads` clamp in the `MarchingCubes` constructor has no effect, because it changes the parameter and not the member.
- `pointIsNearestTo` is left out. It relies on float ties in `glm::distance` and nothing in the core calls it.
- Bounding-box collision (`CheckCollision`), the model's meshes and boxes, and `Triangle3D::computeNormalVector` are function parameters.
- The sphere's `sin`, `cos` and `pi` are a `Trig` parameter. `createSphereModel` and its texture are left out.
- `assignScalarField` and `computeDistanceAFromBC` (exp and glm) are left out.
- Filter tap design (sine and cosine windows), the FFT convolver overload of `convolveToSignal`, `SchroederReverb`, and the libsndfile calls of `WriteAudioFile` are left out.
- `ReadTextFile` is file I/O and is left out.
- `MarchingCubes::createModel` is left out. Its mesh construction and texture cache are renderer code.
- Dsp.NormaliseSignal: an all-zero non-empty signal divides by zero in the source, so the model requires a non-zero sample or an empty signal.
- Dsp.Convolve: two empty inputs make the source allocate a vector of size −1, so the model requires at least one sample.
- Dsp.CombFilter: a delay longer than the signal underflows `size_t` in the loop bound, so the model requires `d ≤ n`.
- Dsp.Filter.ConvolveToSignal: returns the new signal instead of overwriting the caller's vector through the reference.
- Dsp.Filter.LowHigh: the designed taps are a parameter; an ALLPASS filter gets zero taps, because `designAllPass` is not shown.
- Terrain.HeightMapTerrain: when the image is wider than tall, `surfaceX * width + surfaceZ` can fall outside the image; the model requires the sampled pixels to be in range.
- Polygonise.CollectTriangles: does not state that slots past the count keep their old contents.
- CubeLatticeField: a size of 0 is excluded, because `size − 1` wraps around in the source.
- Primitives.CreateSphere: requires `resolution ≥ 2` and a non-zero radius, because the vertex loop divides by `resolution − 1` and by the radius. The index buffer and its lemmas take any resolution.
- Textures.CubeMap.ApplyPatch: the face size is a constructor parameter, because `faceSize` and `cubemapSize` are declared in a header that is not part of this model.
- Textures.Texture.Solid: the model keeps the filled pixel bytes in `textureData`, where the source frees that buffer after uploading it and leaves the pointer dangling.
- Acoustics.Material.constructor: the field is `materialLabel`, because `label` is a reserved word in Dafny.
- Textures.Texture.GeneratePatch: the `opaque` flag has no effect, because channel 3 is never reached with three patch channels and the alpha test is commented out.
- The `MarchingCubes` member `gridSpacing` is used by the source but not declared in the header shown; the model keeps it as a field.
- The `Cell` wrapper: the template lattice stores plain values, while the vector lattice stores cells with a position, a value and a mesh.
