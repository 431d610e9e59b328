# Image filter engine: a Dafny model

This project models the filter engine of a small image-processing program (`Filter.cs`).

- A `Filter` computes one output colour from the source image and a pixel position (`calculateNewPixelColor`).
- `processImage` drives that computation over every pixel into a freshly allocated image of the same size. It walks column by column. Before each column it reports progress, then polls cancellation.
- `InvertFilter` and `BrightnessFilter` are per-pixel remaps.
- `MatrixFilter` convolves the image with a kernel. It samples neighbours clamp-to-edge and saturates every channel into [0,255].
- `SobelFilter` and `SharpnessFilter` are `MatrixFilter`s with fixed 3x3 integer kernels.

Layout, one module per file:

- `Pixels.dfy`: colours, with the channel type `Byte` = [0,255] (the bytes of a System.Drawing `Color`), and the shared `Clamp`.
- `PointFilters.dfy`: Invert and Brightness.
- `MatrixFilters.dfy`: the convolution. `Sample` is clamp-to-edge sampling. `RowPartial`/`Partial`/`WeightedSum` are the channel sums in the order the source accumulates them. `ConvolvePixel` is the specification. `ConvolveAt` is the source's loop, proved equal to it. Lemmas cover flat neighbourhoods, 1x1 images and accumulator magnitudes.
- `Filters.dfy`: the closed set of filter kinds as a datatype, `ComputePixel` (the dispatch), `CalculateNewPixelColor` and `ProcessImage`.
- `Presets.dfy`: the Sobel and sharpening kernel constructors and their properties.

Modelling choices:

- Images are `array2<Color>`, indexed `[x, y]`. `Length0` is the width and `Length1` the height.
- Kernels are `array2<int>`, indexed `[x offset + radiusX, y offset + radiusY]`, exactly as the source indexes its `float[,]`.
- Cancellation is an input `cancel: seq<bool>`: `cancel[i]` is what `CancellationPending` reads before column `i`.
- Progress is returned as a log of the column indices reported.
- The source image must be at least 1x1, which a `Bitmap` always is.
- `new Color[w, h]` stands for `new Bitmap(w, h)`. Writing `result[i, j]` stands for `SetPixel`. Reading `img[x, y]` stands for `GetPixel`.
- Three facts about the code that the model follows:
  - A Sobel kernel written `[[-1,0,1],[-2,0,2],[-1,0,1]]` is usually read as a horizontal gradient. The source fills `kernel[0,*] = -1,0,1`, `kernel[1,*] = -2,0,2`, `kernel[2,*] = -1,0,1` and indexes it `[x offset, y offset]`, so this kernel takes the difference along y and smooths along x. `Presets.SobelIgnoresChangeAlongX` proves that it does not respond to change along x.
  - The convolution truncates each channel sum (the `(int)` cast) and then clamps it into [0,255]. With integer weights the sums are exact integers, so truncation changes nothing.
  - `MatrixFilter(float[,])` does not check its kernel (see Findings).

## Model

| member | source | states |
|---|---|---|
| `Pixels.Clamp` | Filter.cs:16-21 | on a non-empty range the result lies in [min,max]; a value already in range is returned unchanged; the result is the point of the range nearest to the value |
| `Pixels.ClampSaturates` | Filter.cs:16-21 | below the range the result is min, above it max |
| `Pixels.ClampIdempotent` | Filter.cs:16-21 | clamping an already clamped value changes nothing |
| `PointFilters.InvertColor` | Filter.cs:40-45 | every output channel is 255 minus the input channel, with no clamping needed |
| `PointFilters.InvertInvolution` | Filter.cs:42-43 | inverting twice returns the original colour |
| `PointFilters.BrightnessColor` | Filter.cs:50-62 | every output channel is min(255, c + 20), at least 20 and never below the input channel |
| `PointFilters.BrightnessSaturates` | Filter.cs:53-60 | a channel of 235 or more becomes 255 |
| `PointFilters.BrightnessOfBlack` | Filter.cs:53-60 | black becomes (20, 20, 20) |
| `MatrixFilters.KernelIndexInRange` | Filter.cs:103-117 | for an odd kernel length every offset in [-radius, radius] gives a kernel index in [0, length-1] |
| `MatrixFilters.EvenKernelOverrun` | Filter.cs:103-117 | for a kernel with an even (or zero) dimension, the last offset the loops visit in that dimension makes the kernel index at line 115 equal to the dimension's length, one past the last cell |
| `MatrixFilters.SampleInImage` | Filter.cs:112-114 | clamped neighbour coordinates always lie in [0,W-1]x[0,H-1], and inside the image a sample is the pixel itself |
| `MatrixFilters.SingletonSamples` | Filter.cs:112-114 | on a 1x1 image every sample is the single pixel |
| `MatrixFilters.ConvolveAt` | Filter.cs:101-125 | the nested l/k loops with accumulators resultR/G/B compute exactly ConvolvePixel: each channel's weighted sum over the clamp-to-edge neighbourhood, saturated |
| `MatrixFilters.ConvolveSaturates` | Filter.cs:120-124 | whatever the kernel weights, every output channel lies in [0,255]: the weighted sum when in range, 0 below, 255 above |
| `MatrixFilters.FlatNeighbourhood` | Filter.cs:108-119 | where every weighed neighbour is c, each channel's weighted sum is c's channel times the sum of the weights |
| `MatrixFilters.ConvolveFlat` | Filter.cs:108-124 | where every weighed neighbour is c, the output pixel is c scaled by the sum of the weights and saturated |
| `MatrixFilters.UniformIsFlat` | Filter.cs:112-114 | on a uniform image every weighed neighbour of every pixel has the image's colour |
| `MatrixFilters.ConvolveUniform` | Filter.cs:108-124 | on a uniform image every output pixel is the colour scaled by the weight sum and saturated |
| `MatrixFilters.ConvolveSingleton` | Filter.cs:108-124 | on a 1x1 image the output is the single pixel scaled by the weight sum and saturated |
| `MatrixFilters.AccumulatorBound` | Filter.cs:105-118 | every value an accumulator takes has magnitude at most 255 times the summed magnitudes of the weights |
| `Filters.NewMatrixFilter` | Filter.cs:97-100 | a kernel is accepted exactly when both its dimensions are odd |
| `Filters.AcceptedKernelIndicesInRange` | Filter.cs:103-117 | for an accepted kernel, every kernel index the convolution loops visit is inside the kernel |
| `Filters.PointFilterIsLocal` | Filter.cs:40-62 | Invert and Brightness depend only on the source pixel at the same position |
| `Filters.CalculateNewPixelColor` | Filter.cs:14 | the per-kind computation returns ComputePixel for the pixel |
| `Filters.FirstCancel` | Filter.cs:25-29 | the first column whose poll sees cancellation: no earlier flag is set, and the flag at it is set unless it is the width |
| `Filters.CancelledIffSomeFlag` | Filter.cs:25-29 | a pass is cancelled exactly when some column's poll sees cancellation |
| `Filters.ProgressIncreasing` | Filter.cs:25-27 | progress names columns 0, 1, ... in strictly increasing order, each once, never beyond the width |
| `Filters.CancelBeforeFirstColumn` | Filter.cs:25-29 | cancellation pending before column 0 cancels the pass after reporting column 0 only |
| `Filters.FillColumn` | Filter.cs:30-33 | every row j of column i receives ComputePixel(source, i, j); every other column is left as it was |
| `Filters.ProcessImage` | Filter.cs:22-36 | the source and the kernel are unchanged; progress is reported once per started column, including the cancelled one; the result is null exactly when cancelled; otherwise it is a fresh image of the source's width and height whose every pixel (i,j) is ComputePixel(source, i, j) |
| `Presets.SobelFilter` | Filter.cs:143-157 | builds a fresh 3x3 kernel whose cell [a,b] is (b-1) times 2 in the middle column and 1 elsewhere |
| `Presets.SobelWeightSums` | Filter.cs:148-156 | the Sobel weights sum to 0 and their magnitudes to 8 |
| `Presets.SobelUniformIsBlack` | Filter.cs:148-156 | on a uniform image every Sobel output pixel is black |
| `Presets.SobelIgnoresChangeAlongX` | Filter.cs:148-156 | on an image whose columns are each constant every Sobel output pixel is black |
| `Presets.SobelAccumulationExact` | Filter.cs:115-117 | every Sobel accumulator value has magnitude at most 255*8 < 2^24, so the source's float sums are exact |
| `Presets.SharpnessFilter` | Filter.cs:186-196 | builds a fresh 3x3 kernel with 5 at the centre, -1 at the four edge cells and 0 at the corners, from the parity loop and the centre override |
| `Presets.SharpnessWeightSums` | Filter.cs:191-195 | the sharpening weights sum to 1 and their magnitudes to 9 |
| `Presets.SharpnessKeepsFlatNeighbourhood` | Filter.cs:191-195 | a pixel whose clamped 3x3 neighbourhood is flat is left unchanged |
| `Presets.SharpnessUniformUnchanged` | Filter.cs:191-195 | on a uniform image sharpening changes no pixel, at the border too |
| `Presets.SharpnessAccumulationExact` | Filter.cs:115-117 | every sharpening accumulator value has magnitude at most 255*9 < 2^24, so the source's float sums are exact |
| `Presets.BlackImage` | Filter.cs:141-197 | on an all-black image Sobel and sharpening both give black everywhere |

## Left out

- GrayScaleFilter and SepyaFilter (Filter.cs:65-92): their weights 0.36f, 0.53f and 0.11f are inexact binary floats, so the truncated results depend on IEEE rounding.
- BlurFilter (Filter.cs:128-139): the weight 1/9 is not representable, so its sums and their truncation depend on float rounding.
- GaussianFilter (Filter.cs:160-182): `Math.Exp` and float normalisation; its weights sum to 1 only approximately.
- MatrixFilters.ConvolvePixel: models kernel weights as integers and the accumulation as exact integer arithmetic. The source's `float` sums agree only while every accumulator stays within 2^24 in magnitude. `AccumulatorBound` bounds them by 255 times the summed weight magnitude, so the Sobel and sharpening presets qualify. A generic `MatrixFilter` with fractional or very large weights is not modelled.
- Filters.ProcessImage: records the column index where the source reports the percentage `(int)((float)i / Width * 100)`. That float division and truncation is not modelled.
- `BackgroundWorker`: threads, the progress callback and the cancellation flag become the `cancel` sequence and the returned progress log.
- `Bitmap`, `GetPixel`/`SetPixel` and `Color.FromArgb` alpha: the image is a grid of RGB colours. The source drops the alpha of every pixel it reads and writes opaque colours. Colour range checks are part of the `Byte` type.
- C# 32-bit `int` overflow in coordinates (`x + k`): for any image a `Bitmap` can hold these values are far from the limit, so integers are unbounded here.
- Filters.ProcessImage: requires `|cancel|` to equal the width, one poll result per column that could be started.

## Findings

| source | as written | input that shows it | evidently intended | confidence | as-written member | corrected member |
|---|---|---|---|---|---|---|
| Filter.cs:97-100 | `MatrixFilter(float[,])` stores any kernel. With an even (or zero) dimension, `calculateNewPixelColor` reads `kernel[k + radiusX, ...]` at index `kernel.GetLength(0)` (line 115) and throws mid-pass | a 2x2 kernel: radiusX = 1, offsets k = -1, 0, 1, index 2 | reject kernels that lack odd dimensions when the filter is constructed, so that every index the convolution visits exists | medium; not executed | `MatrixFilters.EvenKernelOverrun` | `Filters.NewMatrixFilter` (with `Filters.AcceptedKernelIndicesInRange`) |
