/** The integer-weighted MatrixFilter presets SobelFilter and SharpnessFilter:
    their kernel constructors and what the kernels do to flat regions. */
module Presets {
  import opened Pixels
  import opened MatrixFilters
  import opened Filters

  /** Every integer of magnitude at most 2^24 is exactly representable as a
      32-bit float, so float accumulation that stays within it is exact. */
  const FloatExactBound: int := 0x100_0000

  // ---------------------------------------------------------------------------
  // The sums of a 3x3 kernel written out cell by cell.

  lemma WeightSums3x3(kernel: array2<int>)
    requires kernel.Length0 == 3 && kernel.Length1 == 3
    ensures WeightTotal(kernel) == RowWeight(kernel, 0, 3) + RowWeight(kernel, 1, 3) + RowWeight(kernel, 2, 3)
    ensures AbsWeightTotal(kernel) == AbsRowWeight(kernel, 0, 3) + AbsRowWeight(kernel, 1, 3) + AbsRowWeight(kernel, 2, 3)
    ensures forall b :: 0 <= b < 3 ==> RowWeight(kernel, b, 3) == kernel[0, b] + kernel[1, b] + kernel[2, b]
    ensures forall b :: 0 <= b < 3 ==> AbsRowWeight(kernel, b, 3) == Abs(kernel[0, b]) + Abs(kernel[1, b]) + Abs(kernel[2, b])
  {
    assert WeightPartial(kernel, 1) == RowWeight(kernel, 0, 3);
    assert WeightPartial(kernel, 2) == WeightPartial(kernel, 1) + RowWeight(kernel, 1, 3);
    assert WeightPartial(kernel, 3) == WeightPartial(kernel, 2) + RowWeight(kernel, 2, 3);
    assert AbsWeightPartial(kernel, 1) == AbsRowWeight(kernel, 0, 3);
    assert AbsWeightPartial(kernel, 2) == AbsWeightPartial(kernel, 1) + AbsRowWeight(kernel, 1, 3);
    assert AbsWeightPartial(kernel, 3) == AbsWeightPartial(kernel, 2) + AbsRowWeight(kernel, 2, 3);
    forall b | 0 <= b < 3
      ensures RowWeight(kernel, b, 3) == kernel[0, b] + kernel[1, b] + kernel[2, b]
      ensures AbsRowWeight(kernel, b, 3) == Abs(kernel[0, b]) + Abs(kernel[1, b]) + Abs(kernel[2, b])
    {
      assert RowWeight(kernel, b, 1) == kernel[0, b];
      assert AbsRowWeight(kernel, b, 1) == Abs(kernel[0, b]);
    }
  }

  lemma ChannelRow3(ch: Channel, kernel: array2<int>, img: Image, x: int, y: int, b: int)
    requires kernel.Length0 == 3 && kernel.Length1 == 3 && 0 <= b < 3
    requires NonEmpty(img)
    ensures RowPartial(ch, kernel, img, x, y, b, 3)
         == Chan(Tap(kernel, img, x, y, 0, b), ch) * kernel[0, b]
          + Chan(Tap(kernel, img, x, y, 1, b), ch) * kernel[1, b]
          + Chan(Tap(kernel, img, x, y, 2, b), ch) * kernel[2, b]
  {
    assert RowPartial(ch, kernel, img, x, y, b, 1) == Chan(Tap(kernel, img, x, y, 0, b), ch) * kernel[0, b];
  }

  lemma ChannelSums3x3(ch: Channel, kernel: array2<int>, img: Image, x: int, y: int)
    requires kernel.Length0 == 3 && kernel.Length1 == 3
    requires NonEmpty(img)
    ensures WeightedSum(ch, kernel, img, x, y)
         == RowPartial(ch, kernel, img, x, y, 0, 3) + RowPartial(ch, kernel, img, x, y, 1, 3) + RowPartial(ch, kernel, img, x, y, 2, 3)
  {
    assert Partial(ch, kernel, img, x, y, 1) == RowPartial(ch, kernel, img, x, y, 0, 3);
    assert Partial(ch, kernel, img, x, y, 2) == Partial(ch, kernel, img, x, y, 1) + RowPartial(ch, kernel, img, x, y, 1, 3);
    assert Partial(ch, kernel, img, x, y, 3) == Partial(ch, kernel, img, x, y, 2) + RowPartial(ch, kernel, img, x, y, 2, 3);
  }

  // ---------------------------------------------------------------------------
  // SobelFilter

  /** The Sobel weight of kernel cell [a, b] (a along x, b along y): the
      difference along y (b - 1), smoothed along x by [1, 2, 1]. */
  function SobelWeight(a: int, b: int): int
  {
    (b - 1) * (if a == 1 then 2 else 1)
  }

  ghost predicate IsSobelKernel(kernel: array2<int>)
    reads kernel
  {
    && kernel.Length0 == 3 && kernel.Length1 == 3
    && forall a, b :: 0 <= a < 3 && 0 <= b < 3 ==> kernel[a, b] == SobelWeight(a, b)
  }

  /** The SobelFilter constructor: a fresh 3x3 kernel filled cell by cell. */
  method SobelFilter() returns (f: Filter)
    ensures f.Matrix? && fresh(f.kernel) && IsSobelKernel(f.kernel) && FilterValid(f)
  {
    var kernel := new int[3, 3];
    kernel[0, 0] := -1;
    kernel[0, 1] := 0;
    kernel[0, 2] := 1;
    kernel[1, 0] := -2;
    kernel[1, 1] := 0;
    kernel[1, 2] := 2;
    kernel[2, 0] := -1;
    kernel[2, 1] := 0;
    kernel[2, 2] := 1;
    f := Matrix(kernel);
  }

  /** The Sobel weights sum to 0 and their magnitudes to 8. */
  lemma SobelWeightSums(kernel: array2<int>)
    requires IsSobelKernel(kernel)
    ensures WeightTotal(kernel) == 0
    ensures AbsWeightTotal(kernel) == 8
  {
    WeightSums3x3(kernel);
  }

  /** On a uniform image the Sobel filter gives black at every pixel. */
  lemma SobelUniformIsBlack(f: Filter, img: Image, c: Color, x: int, y: int)
    requires f.Matrix? && IsSobelKernel(f.kernel)
    requires 0 <= x < img.Length0 && 0 <= y < img.Length1
    requires Uniform(img, c)
    ensures ComputePixel(f, img, x, y) == Color(0, 0, 0)
  {
    ConvolveUniform(f.kernel, img, x, y, c);
    SobelWeightSums(f.kernel);
  }

  /** Every channel of an image whose columns are each constant (so that it
      changes along x only) has Sobel weighted sum 0. */
  lemma SobelSumOfColumnConstant(ch: Channel, kernel: array2<int>, img: Image, x: int, y: int)
    requires IsSobelKernel(kernel)
    requires NonEmpty(img)
    requires forall i, j, j' :: 0 <= i < img.Length0 && 0 <= j < img.Length1 && 0 <= j' < img.Length1 ==> img[i, j] == img[i, j']
    ensures WeightedSum(ch, kernel, img, x, y) == 0
  {
    var v0: int := Chan(Tap(kernel, img, x, y, 0, 1), ch);
    var v1: int := Chan(Tap(kernel, img, x, y, 1, 1), ch);
    var v2: int := Chan(Tap(kernel, img, x, y, 2, 1), ch);
    forall a, b | 0 <= a < 3 && 0 <= b < 3
      ensures Tap(kernel, img, x, y, a, b) == Tap(kernel, img, x, y, a, 1)
    {
      SampleInImage(img, x + a - 1, y + b - 1);
      SampleInImage(img, x + a - 1, y);
    }
    ChannelSums3x3(ch, kernel, img, x, y);
    ChannelRow3(ch, kernel, img, x, y, 0);
    ChannelRow3(ch, kernel, img, x, y, 1);
    ChannelRow3(ch, kernel, img, x, y, 2);
  }

  /** The Sobel kernel, indexed [x, y], responds to change along y only: on an
      image whose columns are each constant every output pixel is black. */
  lemma SobelIgnoresChangeAlongX(f: Filter, img: Image, x: int, y: int)
    requires f.Matrix? && IsSobelKernel(f.kernel)
    requires 0 <= x < img.Length0 && 0 <= y < img.Length1
    requires forall i, j, j' :: 0 <= i < img.Length0 && 0 <= j < img.Length1 && 0 <= j' < img.Length1 ==> img[i, j] == img[i, j']
    ensures ComputePixel(f, img, x, y) == Color(0, 0, 0)
  {
    SobelSumOfColumnConstant(Red, f.kernel, img, x, y);
    SobelSumOfColumnConstant(Green, f.kernel, img, x, y);
    SobelSumOfColumnConstant(Blue, f.kernel, img, x, y);
  }

  // ---------------------------------------------------------------------------
  // SharpnessFilter

  /** The sharpening weight of kernel cell [a, b]: 5 at the centre, -1 at the
      four edge neighbours, 0 at the corners. */
  function SharpnessWeight(a: int, b: int): int
  {
    if a == 1 && b == 1 then 5
    else if a == 1 || b == 1 then -1
    else 0
  }

  ghost predicate IsSharpnessKernel(kernel: array2<int>)
    reads kernel
  {
    && kernel.Length0 == 3 && kernel.Length1 == 3
    && forall a, b :: 0 <= a < 3 && 0 <= b < 3 ==> kernel[a, b] == SharpnessWeight(a, b)
  }

  /** The SharpnessFilter constructor: cells of even parity (i + j) get 0, the
      others -1, and the centre is then overwritten with 5. */
  method SharpnessFilter() returns (f: Filter)
    ensures f.Matrix? && fresh(f.kernel) && IsSharpnessKernel(f.kernel) && FilterValid(f)
  {
    var sizeX := 3;
    var sizeY := 3;
    var kernel := new int[sizeX, sizeY];
    for i := 0 to sizeX
      invariant forall a, b :: 0 <= a < i && 0 <= b < sizeY ==> kernel[a, b] == (if (a + b) % 2 == 0 then 0 else -1)
    {
      for j := 0 to sizeY
        invariant forall a, b :: 0 <= a < i && 0 <= b < sizeY ==> kernel[a, b] == (if (a + b) % 2 == 0 then 0 else -1)
        invariant forall b :: 0 <= b < j ==> kernel[i, b] == (if (i + b) % 2 == 0 then 0 else -1)
      {
        if (i + j) % 2 == 0 {
          kernel[i, j] := 0;
        } else {
          kernel[i, j] := -1;
        }
      }
    }
    kernel[1, 1] := 5;
    f := Matrix(kernel);
  }

  /** The sharpening weights sum to 1 and their magnitudes to 9. */
  lemma SharpnessWeightSums(kernel: array2<int>)
    requires IsSharpnessKernel(kernel)
    ensures WeightTotal(kernel) == 1
    ensures AbsWeightTotal(kernel) == 9
  {
    WeightSums3x3(kernel);
  }

  /** Sharpening leaves a pixel unchanged wherever its clamped 3x3 neighbourhood is flat. */
  lemma SharpnessKeepsFlatNeighbourhood(f: Filter, img: Image, c: Color, x: int, y: int)
    requires f.Matrix? && IsSharpnessKernel(f.kernel)
    requires 0 <= x < img.Length0 && 0 <= y < img.Length1
    requires FlatAround(f.kernel, img, x, y, c)
    ensures ComputePixel(f, img, x, y) == c
  {
    ConvolveFlat(f.kernel, img, x, y, c);
    SharpnessWeightSums(f.kernel);
  }

  /** On a uniform image the sharpening filter changes no pixel. */
  lemma SharpnessUniformUnchanged(f: Filter, img: Image, c: Color, x: int, y: int)
    requires f.Matrix? && IsSharpnessKernel(f.kernel)
    requires 0 <= x < img.Length0 && 0 <= y < img.Length1
    requires Uniform(img, c)
    ensures ComputePixel(f, img, x, y) == c
  {
    UniformIsFlat(f.kernel, img, x, y, c);
    SharpnessKeepsFlatNeighbourhood(f, img, c, x, y);
  }

  // ---------------------------------------------------------------------------
  // Exactness of the source's float accumulation for these presets.

  /** Every value the Sobel accumulators take has magnitude at most 255 * 8,
      well inside the range where float addition is exact. */
  lemma SobelAccumulationExact(ch: Channel, kernel: array2<int>, img: Image, x: int, y: int, b: int, n: int)
    requires IsSobelKernel(kernel)
    requires NonEmpty(img)
    requires 0 <= b < 3 && 0 <= n <= 3
    ensures Abs(Partial(ch, kernel, img, x, y, b) + RowPartial(ch, kernel, img, x, y, b, n)) <= 255 * 8 < FloatExactBound
  {
    AccumulatorBound(ch, kernel, img, x, y, b, n);
    SobelWeightSums(kernel);
  }

  /** Every value the sharpening accumulators take has magnitude at most 255 * 9,
      well inside the range where float addition is exact. */
  lemma SharpnessAccumulationExact(ch: Channel, kernel: array2<int>, img: Image, x: int, y: int, b: int, n: int)
    requires IsSharpnessKernel(kernel)
    requires NonEmpty(img)
    requires 0 <= b < 3 && 0 <= n <= 3
    ensures Abs(Partial(ch, kernel, img, x, y, b) + RowPartial(ch, kernel, img, x, y, b, n)) <= 255 * 9 < FloatExactBound
  {
    AccumulatorBound(ch, kernel, img, x, y, b, n);
    SharpnessWeightSums(kernel);
  }

  // ---------------------------------------------------------------------------
  // A black image.

  /** On an all-black image, Sobel and sharpening both give black everywhere. */
  lemma BlackImage(sobel: Filter, sharp: Filter, img: Image, x: int, y: int)
    requires sobel.Matrix? && IsSobelKernel(sobel.kernel)
    requires sharp.Matrix? && IsSharpnessKernel(sharp.kernel)
    requires 0 <= x < img.Length0 && 0 <= y < img.Length1
    requires Uniform(img, Color(0, 0, 0))
    ensures ComputePixel(sobel, img, x, y) == Color(0, 0, 0)
    ensures ComputePixel(sharp, img, x, y) == Color(0, 0, 0)
  {
    SobelUniformIsBlack(sobel, img, Color(0, 0, 0), x, y);
    SharpnessUniformUnchanged(sharp, img, Color(0, 0, 0), x, y);
  }
}
