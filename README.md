# Feature warping from image space into UV space

This project models `warp_feature` in `generate_UV.py` and proves properties of the model. The function takes two inputs:

- a DensePose-style IUV map `dp_out`, with shape (B, 3, H, W): channel 0 is the foreground confidence, channels 1 and 2 are the U and V coordinates;
- an image-space feature map, with shape (B, C, H, W).

It returns a UV-space feature map with shape (B, C + 3, R, R). The work happens in six stages:

1. It enumerates every pixel in batch-major, row, column order.
2. It keeps the pixels whose confidence is strictly above 0.5.
3. It turns each kept pixel's (u, v) into a grid cell: scale by R - 1, round half to even, clamp into [0, R - 1]. It then linearises (b, v, u) into the buffer slot b·R² + v·R + u.
4. It gathers the pixel's C features and appends its column and row, each rescaled to [-1, 1].
5. It scatter-adds (`index_add_`) a 1 into a zeroed count buffer and the gathered vector into a zeroed feature buffer. Collisions sum.
6. It divides every row by count + 1e-8, appends a mask that is 1 where the count is positive, and reshapes and permutes the (B·R², C + 3) buffer to (B, C + 3, R, R).

Modules, in the order of the pipeline:

- `Tensors`: rank-4 tensors of reals.
- `Grid`: rounding, clamping, grid coordinate, slot formula, rescale.
- `Pixels`: enumeration and foreground filter.
- `Scatter`: the in-place `index_add_` over `array2` buffers, and its pure description by hit counts and column totals.
- `Warp`: the whole function. It exists twice:
  - `WarpSpec` is its specification as a function.
  - `WarpFeature` is the method that runs the two in-place scatters, proved equal to `WarpSpec`.
- `Properties`: what the output is, cell by cell.

Feature values are real numbers and the 1e-8 guard is the exact real `EPS`, so a covered cell holds total / (count + EPS), not exactly the mean. Errors are a `Result`.

The model follows the code where the docstring says less. The code does not check up front that `dp_out` has three channels, nor that `uv_res` is positive. The failures therefore happen where the code does the indexing:

- A mismatch of batch size, height or width fails the asserts, and this check comes first (`ShapeMismatch`).
- With fewer than three IUV channels the call fails (`MissingChannel`) even when there is no foreground. With no channel at all, the confidence read `dp_out[:, 0]` of line 58 fails. With one or two channels, the read of UV column 1 at line 93 fails.
- With `uv_res == 0`, the buffers have no rows. Any foreground pixel then makes `index_add_` fail (`SlotOutOfRange`). With no foreground pixel, the result is an empty (B, C + 3, 0, 0) tensor.

## Model

| member | source | states |
|---|---|---|
| Grid.Round | generate_UV.py:89 | `round()` gives the nearest integer (within 0.5), and ties go to the even neighbour |
| Grid.Clamp | generate_UV.py:89 | `clamp(min, max)` lands in [lo, hi], leaves values in range unchanged, and maps values below or above to the bound |
| Grid.GridCoord | generate_UV.py:88-89 | for every UV value the grid coordinate is a cell in [0, R - 1]; for UV in [0, 1] the clamp is inactive and the cell is the nearest integer to uv·(R - 1) |
| Grid.ScaleUnit | generate_UV.py:88 | a UV value in [0, 1] scaled by R - 1 lies in [0, R - 1] |
| Grid.RoundInRange | generate_UV.py:89 | rounding a value in [0, R - 1] gives a cell in [0, R - 1], so the clamp leaves it unchanged |
| Grid.LinearBound | generate_UV.py:93 | b·n·m + v·m + u with every index in range lies below B·n·m, the row count of the buffers allocated at lines 105 and 110 |
| Grid.LinearDecode | generate_UV.py:118 | unflattening a linear index, as the reshape does, recovers (b, v, u) |
| Grid.LinearEncode | generate_UV.py:118 | every index below B·n·m is the linear index of its decoded in-range triple, so the reshape covers every buffer row |
| Grid.Unslot | generate_UV.py:118 | the cell decoded from a buffer row is in range and its slot is that row: the inverse of the slot formula |
| Grid.SlotInjective | generate_UV.py:93 | two distinct in-range (b, v, u) triples never share a slot |
| Grid.Rescale | generate_UV.py:99-100 | 2·pos/(dim - 1) - 1 lies in [-1, 1] for pos < dim; the first pixel maps to -1 and the last to 1 |
| Pixels.Enumerate | generate_UV.py:65-74 | the index vectors list B·H·W pixels, all inside the image |
| Pixels.Unflatten | generate_UV.py:65-74 | every flat index below B·H·W decodes to a pixel inside the image |
| Pixels.EnumerateAt | generate_UV.py:65-74 | the i-th enumerated pixel (b, y, x) satisfies i = b·H·W + y·W + x |
| Pixels.EnumerateIndex | generate_UV.py:65-74 | every pixel of the image is enumerated exactly at position b·H·W + y·W + x |
| Pixels.EnumeratedConfidence | generate_UV.py:65-78 | the confidence vector holds, at position b·H·W + y·W + x, channel 0 of the IUV map at pixel (b, y, x), for every pixel of the image |
| Pixels.Kept | generate_UV.py:79-82 | boolean-mask indexing only keeps positions of the mask |
| Pixels.KeptSpec | generate_UV.py:79-82 | a position is kept iff its confidence is strictly above 0.5, and the kept positions come in strictly increasing order |
| Pixels.Foreground | generate_UV.py:80-82 | every surviving pixel lies inside the image |
| Pixels.ForegroundMember | generate_UV.py:60 | a pixel survives iff it is in the image and its confidence is strictly above 0.5 (exactly 0.5 is background) |
| Pixels.ForegroundOrder | generate_UV.py:79-82 | filtering keeps the enumeration order: survivors come in strictly increasing b·H·W + y·W + x |
| Warp.Gather | generate_UV.py:96-101 | the gathered vector has C + 2 entries: the C features of the pixel, then its rescaled x, then its rescaled y, both in [-1, 1] |
| Warp.PixelSlot | generate_UV.py:85-93 | the slot built from UV channels 1 (u) and 2 (v) indexes a row of the B·R² buffers |
| Warp.Samples | generate_UV.py:85-101 | one sample per foreground pixel, each aimed at a buffer row and carrying C + 2 values |
| Warp.WarpSamples | generate_UV.py:85-101 | with R >= 1 the scattered samples are exactly one per foreground pixel and fit the buffers |
| Warp.Normalise | generate_UV.py:114-116 | the normalised buffer keeps the row count and gains one mask column per row |
| Warp.Reshape | generate_UV.py:118 | the reshape and permute produce a well-formed (B, K, R, R) tensor |
| Scatter.Hits | generate_UV.py:106 | the count of a row never exceeds the number of samples |
| Scatter.CountBuffer | generate_UV.py:105-106 | the count buffer has B·R² rows |
| Scatter.SumBuffer | generate_UV.py:110-111 | the feature buffer has B·R² rows of C + 2 columns |
| Scatter.Ones | generate_UV.py:106 | `new_ones([num_pixel, 1])` is one single-column row per sample, with the sample's index |
| Scatter.TotalOfOnes | generate_UV.py:105-106 | adding ones into a row counts the samples aimed at it |
| Scatter.NoHitsNoTotal | generate_UV.py:110-111 | a row no sample targets keeps its zero in every column |
| Scatter.ConcatHits | generate_UV.py:106 | counting splits over a concatenation of the samples |
| Scatter.ConcatTotal | generate_UV.py:111 | accumulation splits over a concatenation of the samples |
| Scatter.HitsOrderIndependent | generate_UV.py:106 | every row's count is the same for any reordering of the samples |
| Scatter.HitsSnoc | generate_UV.py:106 | one-step unfolding of `Hits`, used by `HitsWithout`: one more sample adds one hit to its own row and none elsewhere |
| Scatter.HitsWithout | generate_UV.py:106 | taking one sample out removes exactly its hit on its own row |
| Scatter.TotalSnoc | generate_UV.py:111 | one-step unfolding of `Total`, used by `TotalWithout`: one more sample adds its value to its own row and nothing elsewhere |
| Scatter.TotalWithout | generate_UV.py:111 | taking one sample out removes exactly its contribution to its own row |
| Scatter.TotalOrderIndependent | generate_UV.py:111 | every row's sums are the same for any reordering of the samples: accumulation sums rather than keeping the last write |
| Scatter.BuffersOrderIndependent | generate_UV.py:105-111 | both buffers are unchanged by any reordering of the samples |
| Scatter.CountsSumToSamples | generate_UV.py:105-106 | the counts of all B·R² rows add up to the number of samples |
| Scatter.CoveredAtMostHits | generate_UV.py:116 | the rows with a positive count are no more numerous than the sum of the counts |
| Scatter.CoveredAtMostSamples | generate_UV.py:116 | at most as many rows are covered as there are samples |
| Scatter.DistinctAtMostOnce | generate_UV.py:106 | without collisions each row is hit at most once, and exactly once iff some sample targets it |
| Scatter.NotHit | generate_UV.py:106 | a row no sample targets has count 0 |
| Scatter.CoveredIsSumHits | generate_UV.py:116 | without collisions the covered rows number exactly the sum of the counts |
| Scatter.CoveredWithoutCollisions | generate_UV.py:116 | without collisions every sample covers a row of its own |
| Scatter.TotalBounds | generate_UV.py:111 | a row's sum in column j lies between -count and count when every value added there lies in [-1, 1] |
| Scatter.IndexAdd | generate_UV.py:106 | in-place `index_add_` along dimension 0: each row ends with its old contents plus the column totals of the samples aimed at it |
| Scatter.Accumulate | generate_UV.py:105-111 | the two zero-initialised in-place scatters produce exactly `CountBuffer` and `SumBuffer` |
| Warp.WarpFeature | generate_UV.py:43-120 | the method with in-place scatters returns exactly the specified result, errors included |
| Properties.PooledRow | generate_UV.py:114-116 | every pooled row holds total/(count + EPS) in each feature column and the mask (count > 0) in the last; a row with count 0 is zero throughout |
| Properties.ReshapeInverse | generate_UV.py:118 | buffer row s, column c reappears at output [b, c, v, u] for the cell (b, v, u) whose slot is s |
| Properties.ReshapeAt | generate_UV.py:118 | one-step unfolding of `Reshape`, used by `PooledCell`: output [b, c, v, u] of the reshape and permute is column c of buffer row b·R² + v·R + u |
| Properties.WarpOutcome | generate_UV.py:54-56 | a shape mismatch is reported first, then a missing IUV channel; the call succeeds iff neither happens and R >= 1 or there is no foreground; a success has shape (B, C + 3, R, R); this holds for single-row and single-column images too, except when they reach the rescale with foreground |
| Properties.WarpCell | generate_UV.py:105-118 | on success the output has shape (B, C + 3, R, R); output [b, c, v, u] for c < C + 2 is the total of the foreground samples in slot b·R² + v·R + u divided by their count + EPS; channel C + 2 is 1 iff the count is positive; an uncovered cell is zero in every channel |
| Properties.PooledCell | generate_UV.py:105-118 | for any samples, cell [b, c, v, u] of the reshaped pooled buffers is column c of the pooled row b·R² + v·R + u: total/(count + EPS), or the mask in the last channel, and 0 when no sample targets the row |
| Properties.WarpCoordinateChannels | generate_UV.py:99-101 | the x and y channels C and C + 1 of every output cell stay in [-1, 1] |
| Properties.CoordinateMean | generate_UV.py:114 | a pooled value x = total/(count + EPS) of a column whose values all lie in [-1, 1] lies in [-1, 1] |
| Properties.SampleCoordinates | generate_UV.py:99-101 | every scattered sample carries its x and y in [-1, 1] |
| Properties.MeanBound | generate_UV.py:114 | a total bounded by ±count, divided by count + EPS, lies in [-1, 1] |
| Properties.MaskAt | generate_UV.py:116-118 | the mask of the cell that buffer row s is reshaped into is 1 iff some sample targets row s, and 0 otherwise |
| Properties.MaskCount | generate_UV.py:116 | a tensor whose mask, row by row, tells whether the row is targeted has as many masked cells as there are covered rows |
| Properties.PooledMaskCount | generate_UV.py:116-118 | for any samples, the masked cells of the reshaped pooled buffers number exactly the rows with a positive count |
| Properties.MaskedAreCovered | generate_UV.py:116 | the number of output cells whose mask is 1 equals the number of buffer rows with a positive count |
| Properties.WarpCoverage | generate_UV.py:105-116 | the counts add up to the number of foreground pixels, at most that many cells carry mask 1, and exactly that many when no two foreground pixels share a slot |
| Properties.WarpNoForeground | generate_UV.py:79-82 | with no confidence above 0.5, every output element, mask included, is 0, for every image size including a single row or column |
| Properties.WarpOrderIndependent | generate_UV.py:110-118 | pooling any reordering of the foreground samples gives the same output tensor |
| Properties.WarpSampleOrigin | generate_UV.py:85-101 | unfolding of `Samples` and `PixelSlot`, as a reading aid: sample k comes from foreground pixel k: its slot is built from that pixel's UV channels 1 and 2, and its vector is the pixel's gathered features |

## Left out

- `save_uv_map`, `save_Img`, `trans_img2UV` and the `__main__` block: file and image I/O, dataset loading and plotting, with no logic to verify.
- Torch device placement, `.detach()`, `.contiguous()` and autograd: these do not change values.
- IEEE floating point: feature values, the rescale and the division by count + 1e-8 are exact real arithmetic. Float rounding error, and the float-to-long conversion for values too large for 64 bits, are not modelled.
- NaN and infinite inputs: these have no counterpart in the reals.
- Warp.WarpSpec: requires H != 1 and W != 1 when the shape checks pass, the IUV map has three channels and some pixel is foreground. Only then does the coordinate rescale (generate_UV.py:99-100) divide a non-empty tensor by H - 1 = 0 or W - 1 = 0. The only position is then 0, so the coordinate is 0/0, a NaN, which the model does not represent.
- Warp.WarpFeature: has the same requirement as `WarpSpec`.
- A negative `uv_res`: the resolution is a natural number in the model.
- Properties.MaskedCells: counts the masked cells in flat (b, v, u) order, the order of the buffer rows, rather than as an unordered set of cells.
- Tensors as `seq` values: the whole function is modelled on values except the two `index_add_` scatters, which update `array2` buffers in place. Aliasing between the inputs and the output is not captured.
