# simplecv2 image helpers, modelled in Dafny

`simplecv2.py` is a small set of helpers on numpy image arrays of shape
`(height, width)` or `(height, width, channels)`. This project models the
four helpers whose logic is the file's own. None of them depends on the
vision libraries.

- `resize_image_with_crop_or_pad` centres an image in a target canvas. Along
  each axis independently, an axis longer than the target is cropped around
  its midpoint. An axis no longer than the target is placed at the
  midpoint offset inside zero padding. Midpoints are `floor(size / 2)`.
  The code writes some slice ends as `size + 1` and depends on numpy
  cutting slice bounds down to the axis length. The model writes that
  clipping out (`CropOrPad.Clip`) and proves that the clipped destination
  and source windows lie inside their arrays and have equal length.
- `imcrop` clamps a box `(x1, y1, x2, y2)` into the image, refuses an
  inverted box, then refuses a rank other than 2 or 3, then slices.
- `imextremum` returns the largest or smallest sample, or fails on an
  unknown selector.
- `mergeedge` validates the shapes, then adds a 2-D edge map onto channels
  0 to 2 with a cap of 255. A 3-D image is changed in place. A 2-D image
  gives a new array.

Modules, one per helper plus one shared module:

- `Images` (images.dfy): the shared vocabulary.
  - `Grid` is a `seq<seq<seq<int>>>` indexed row, column, channel.
  - `Image(data: array3<int>, rank)` is the numpy array a helper receives.
    A 2-D array is kept with a channel axis of length 1. That axis is the
    same one the resize code adds with `expand_dims` and removes again.
  - `Contents` maps an array to its `Grid`.
  - `Result`/`Error` stand for the source's `raise` statements, with one
    error kind per distinct failure.
- `CropOrPad` (crop_or_pad.dfy):
  - the per-axis window arithmetic, as written and as clipped;
  - `Centred`, an independent statement of the centring rule;
  - the specification `Resized` on grids;
  - the array method `ResizeImageWithCropOrPad`. It allocates a zero
    canvas and copies a window with nested loops (`CopyWindow`).
- `Crop` (crop.dfy): box clamping, the slice `CropGrid`, and the method
  `Imcrop`. The method clamps the four coordinates one by one, as the source
  does.
- `Extremum` (extremum.dfy): `ImExtremum` as a function over all samples.
- `Merge` (merge.dfy): the validation order `MergeCheck`, the merged block
  `MergeGrid`, the in-place plane update `AddEdgePlane`, and the two
  methods `MergeEdge` (corrected) and `MergeEdgeAsWritten`.

Where the code and its documentation differ, the model follows the code:

- A target size of 0 is accepted, because `np.zeros` allows an empty axis.
- Equal box corners give an empty crop, because the test is a strict `>`.
- Only channels 0 to 2 take the edge map. Further channels are left alone.
- The resize result is not uint8. See "Left out".

## Model

| member | source | states |
|---|---|---|
| `CropOrPad.Clip` | simplecv2.py:54 | a slice with non-negative bounds selects a range inside `[0, n)`. An in-range slice is unchanged. |
| `CropOrPad.WrittenSpans` | simplecv2.py:34-53 | every start and end the code writes is non-negative, so no slice bound is read as an index from the end. |
| `CropOrPad.Windows` | simplecv2.py:34-54 | after clipping, the destination window lies in `[0, t)` and the source window lies in `[0, s)`. |
| `CropOrPad.WindowsMatch` | simplecv2.py:34-54 | the clipped destination and source windows have equal length, `min(s, t)`. Clipping changes only the `+1` end (by exactly one), in both branches. |
| `CropOrPad.SourceIndex` | simplecv2.py:54 | the source index copied to each target index is inside the source axis. |
| `CropOrPad.SourceIndexIsCentred` | simplecv2.py:29-54 | the clipped slices select exactly the centring rule `Centred` on every target index. |
| `CropOrPad.HalvesFit` | simplecv2.py:34-38 | a window of `t` samples from `floor(s/2) - floor(t/2)` lies inside `[0, s)` whenever `t <= s`. |
| `CropOrPad.CropAxis` | simplecv2.py:34-38 | crop branch: output index `i` reads source index `floor(s/2) - floor(t/2) + i`, and the whole window lies inside the source. |
| `CropOrPad.PadAxis` | simplecv2.py:39-43 | pad branch: the source sits at offset `floor(t/2) - floor(s/2)`, inside the target. Target indices outside that window copy nothing. |
| `CropOrPad.SameAxis` | simplecv2.py:39-43 | equal lengths copy the axis unchanged. |
| `CropOrPad.ShrinkAxis` | simplecv2.py:34-43 | a target no longer than the source, equal lengths included, reads from `floor(s/2) - floor(t/2)`. |
| `CropOrPad.PadThenCropAxis` | simplecv2.py:34-53 | padding an axis to `t` and cropping it back to `s` returns every index to itself. |
| `CropOrPad.Resized` | simplecv2.py:23-57 | the result has shape `(th, tw, c)`, with the channel count of the input. |
| `CropOrPad.ResizedByWindows` | simplecv2.py:31-54 | each output sample is the source sample at the matching offset inside both clipped windows, and 0 outside them. |
| `CropOrPad.ResizedAt` | simplecv2.py:28-54 | each output sample follows the centring rule on both axes independently, mixed crop and pad included. |
| `CropOrPad.ResizeSameSize` | simplecv2.py:39-54 | a target equal to the source size returns the image unchanged. |
| `CropOrPad.CentredBox` | simplecv2.py:34-48 | the centred `th x tw` box lies inside an `h x w` image and has exactly the target size. |
| `CropOrPad.ShrinkIsCentredCrop` | simplecv2.py:34-54 | when both axes shrink, the result equals `imcrop` of the centred box and has no padding. |
| `CropOrPad.GrowIsCentredPad` | simplecv2.py:39-54 | when both axes grow, the centred interior equals the source, the offsets fit inside the target, and every border sample is 0. |
| `CropOrPad.PadThenCropRoundTrip` | simplecv2.py:34-54 | padding to a larger canvas and resizing back to the original size recovers the image. |
| `CropOrPad.CopyWindow` | simplecv2.py:54 | the slice assignment writes exactly the destination window, from the matching source cells. Every other cell is unchanged. |
| `CropOrPad.CanvasIsResized` | simplecv2.py:31-54 | a zero canvas with both windows copied in holds `Resized` of the source. |
| `CropOrPad.ResizeImageWithCropOrPad` | simplecv2.py:6-57 | the result is a new array of shape `(targe_h, targe_w, channels)` with the input's rank, and it holds `Resized` of the input. |
| `Crop.Clamp` | simplecv2.py:72-76 | a clamped coordinate lies in `[0, bound]`. A coordinate already there is kept. |
| `Crop.ClampBox` | simplecv2.py:72-80 | after clamping, `0 <= x1, x2 <= width` and `0 <= y1, y2 <= height`. A box already inside the image is kept. |
| `Crop.ClampBoxIdempotent` | simplecv2.py:72-76 | clamping twice gives the same box as clamping once. |
| `Crop.ClampBoxMonotone` | simplecv2.py:72-76 | clamping keeps `x1 <= x2` and `y1 <= y2`, so a correctly ordered box is never refused. |
| `Crop.CropGrid` | simplecv2.py:84-87 | the crop has shape `(y2 - y1, x2 - x1, c)`, and cell `(r, c)` is `img[y1 + r][x1 + c]`. |
| `Crop.CropWholeGrid` | simplecv2.py:84-87 | cropping the full box returns the image. |
| `Crop.CropOfCrop` | simplecv2.py:84-87 | a crop of a crop equals one crop with the offsets added. |
| `Crop.Imcrop` | simplecv2.py:60-90 | a 0-D or 1-D image fails on its shape lookup. An inverted clamped box fails. Only then does a rank above 3 fail. Success happens exactly when the clamped box is ordered and the rank is 2 or 3, and the result is the crop of the clamped box. Equal corners give an empty crop. |
| `Extremum.SampleIn` | simplecv2.py:149-151 | every sample of the image is in the sequence that max and min range over. |
| `Extremum.SampleAt` | simplecv2.py:149-151 | every value in that sequence is a sample, at some index. |
| `Extremum.SamplesAreTheGrid` | simplecv2.py:149-151 | the reduced sequence holds exactly the image's samples. |
| `Extremum.SamplesCount` | simplecv2.py:149-151 | an `h x w x c` image has `h * w * c` samples. |
| `Extremum.SeqMax` | simplecv2.py:149 | the maximum is an element and no element exceeds it. |
| `Extremum.SeqMin` | simplecv2.py:151 | the minimum is an element and no element is below it. |
| `Extremum.ImExtremum` | simplecv2.py:141-154 | `"max"` gives a sample no smaller than any other, and `"min"` gives one no larger. Any other selector fails, whatever the image. Max and min fail exactly when the image has no samples. |
| `Extremum.ExtremumOfEmpty` | simplecv2.py:148-151 | on a rectangular image, max and min fail exactly when one axis has length 0. |
| `Extremum.MinAtMostMax` | simplecv2.py:148-151 | whenever the maximum exists, the minimum exists and is no larger. |
| `Merge.MergeCheck` | simplecv2.py:163-176 | the call passes validation exactly when the edge map is 2-D, the image is 2-D or 3-D, and heights and widths agree. With both ranks at least 2, a height or width difference is reported as a size mismatch. |
| `Merge.MergeGrid` | simplecv2.py:169-174 | channels 0 to 2 become `min(sample + edge, 255)`, and every other channel keeps its samples. |
| `Merge.MergeStaysInByteRange` | simplecv2.py:170-174 | merging 8-bit inputs gives samples in `[0, 255]`, never below the original. |
| `Merge.MergeBlankEdge` | simplecv2.py:170-174 | an all-zero edge map leaves an 8-bit image unchanged. |
| `Merge.MergeFullEdge` | simplecv2.py:170-174 | an edge value of 255 saturates channels 0 to 2 at 255. |
| `Merge.AddEdgePlane` | simplecv2.py:170 | one channel becomes `min(old + edge, 255)` and the other channels are unchanged, even when the edge map shares the image's storage. |
| `Merge.ThreePlanesMerged` | simplecv2.py:169-172 | after the three channel updates, the image holds `MergeGrid` of its old contents. |
| `Merge.MergeFlat` | simplecv2.py:173-174 | the 2-D branch builds a new array holding `MergeGrid` and leaves the image alone. |
| `Merge.MergeEdge` | simplecv2.py:156-177 | a validation failure returns its error with the image unchanged. A 3-D image with at least three channels is merged in place and returned. A 2-D image gives a new merged array. A 3-D image with fewer than three channels is refused before any write (the correction below). |
| `Merge.MergeEdgeAsWritten` | simplecv2.py:156-177 | as the code runs: a 3-D image with fewer than three channels has every channel it does have merged, and then the call fails with an index error. |
| `Merge.PartialWriteOnFailure` | simplecv2.py:169-172 | for a 1 x 1 x 1 image holding 0 and an edge holding 1, the merged block differs from the input. So that failing call has changed the image. |

## Left out

- `imshow`: it opens a window and blocks on a key press. That is pure I/O.
- `imrotate`: it calls the image library's rotation with canvas expansion, which is floating-point resampling in code outside this file.
- `rgb2gray`: it calls the vision library's colour conversion, which uses floating-point channel weights.
- `imedge_canny`: the Canny detector is a foreign numeric algorithm. Its only local logic is the rank dispatch into `rgb2gray`.
- numpy data types: the model does not track them. `np.zeros` makes the resize result float64, not the uint8 its docstring names. uint8 addition in `mergeedge` wraps modulo 256 before the cap. Samples are unbounded integers, and the cap is modelled as written.
- `CropOrPad.ResizeImageWithCropOrPad`: it requires a rank of 2 or 3 and non-negative integer targets. The source truncates non-integer targets with `np.int`. `np.zeros` raises on negative targets. Other ranks fail in numpy indexing or broadcasting. None of these paths is modelled.
- `Crop.Imcrop`: numpy returns a view that shares storage with the image. The model returns the crop as a value, so later writes through the view are not modelled. The box is four integers, so non-integer coordinates and boxes of another length are not modelled.
- `Extremum.ImExtremum`: it works on the samples as a height x width x channels grid, so arrays of other ranks are not modelled. The selector is a string. Python's `type='max'` default is the caller's choice of argument.
- `Merge.MergeEdge` and `Merge.MergeEdgeAsWritten`: an edge map that is a view into the image is modelled only when it is the same array (a 3-D image with one channel). Other partial overlaps are not modelled.
- Errors: the source raises plain strings, which Python turns into a `TypeError`. The model gives each failure its own error kind instead.
- Arrays of rank 4 or more are represented only by their first two axes, which is all the helpers inspect before they refuse such arrays.

## Findings

| source | as written | input that shows it | evidently intended | confidence | as-written member | corrected member |
|---|---|---|---|---|---|---|
| simplecv2.py:169-172 | on a 3-D image the three channel updates run one after another, and indexing a channel the image lacks raises an IndexError after the earlier channels were already overwritten | `img` of shape (1, 1, 1) holding 0 and `edge` of shape (1, 1) holding 1: channel 0 becomes 1, then `img[:, :, 1]` raises | refuse a 3-D image with fewer than three channels before writing anything, so a failed call leaves the image unchanged | medium; not executed | `Merge.MergeEdgeAsWritten` | `Merge.MergeEdge` |
