/** MatrixFilter: convolution of the source image with a kernel of integer
    weights, sampling neighbours with the clamp-to-edge boundary policy. */
module MatrixFilters {
  import opened Pixels

  function Abs(n: int): nat
  {
    if n >= 0 then n else -n
  }

  /** The radius of a kernel dimension of length n: the largest neighbour offset. */
  function Radius(n: nat): int
  {
    n / 2
  }

  /** Both kernel dimensions odd, so that a centre cell exists. */
  predicate OddKernel(kernel: array2<int>)
  {
    kernel.Length0 % 2 == 1 && kernel.Length1 % 2 == 1
  }

  predicate NonEmpty(img: Image)
  {
    img.Length0 >= 1 && img.Length1 >= 1
  }

  /** For an odd length n, every offset k in [-radius, radius] gives a kernel
      index k + radius in [0, n - 1]. */
  lemma KernelIndexInRange(n: nat, k: int)
    requires n % 2 == 1
    requires -Radius(n) <= k <= Radius(n)
    ensures 0 <= k + Radius(n) <= n - 1
  {
  }

  /** A kernel with an even (or zero) dimension: in that dimension the last
      offset the loops visit, radius, gives the index kernel[k + radiusX,
      l + radiusY] equal to the dimension's length, one past its last cell. */
  lemma EvenKernelOverrun(kernel: array2<int>)
    requires !OddKernel(kernel)
    ensures kernel.Length0 % 2 == 0 ==>
      var k := Radius(kernel.Length0);
      -Radius(kernel.Length0) <= k <= Radius(kernel.Length0) && k + Radius(kernel.Length0) == kernel.Length0
    ensures kernel.Length1 % 2 == 0 ==>
      var l := Radius(kernel.Length1);
      -Radius(kernel.Length1) <= l <= Radius(kernel.Length1) && l + Radius(kernel.Length1) == kernel.Length1
  {
  }

  /** Clamp-to-edge sampling: coordinates outside the image are moved to the
      nearest edge before the pixel is read. */
  function Sample(img: Image, u: int, v: int): Color
    reads img
    requires NonEmpty(img)
  {
    img[Clamp(u, 0, img.Length0 - 1), Clamp(v, 0, img.Length1 - 1)]
  }

  /** The neighbour that kernel cell (a, b) weighs when pixel (x, y) is computed:
      the offset of cell (a, b) from the centre is (a - radiusX, b - radiusY). */
  function Tap(kernel: array2<int>, img: Image, x: int, y: int, a: int, b: int): Color
    reads img
    requires NonEmpty(img)
  {
    Sample(img, x + a - Radius(kernel.Length0), y + b - Radius(kernel.Length1))
  }

  /** Sampling never leaves the image, and inside it reads the pixel itself. */
  lemma SampleInImage(img: Image, u: int, v: int)
    requires NonEmpty(img)
    ensures 0 <= Clamp(u, 0, img.Length0 - 1) < img.Length0
    ensures 0 <= Clamp(v, 0, img.Length1 - 1) < img.Length1
    ensures 0 <= u < img.Length0 && 0 <= v < img.Length1 ==> Sample(img, u, v) == img[u, v]
  {
  }

  /** On a 1x1 image every sample is the single pixel. */
  lemma SingletonSamples(img: Image, u: int, v: int)
    requires img.Length0 == 1 && img.Length1 == 1
    ensures Sample(img, u, v) == img[0, 0]
  {
  }

  // ---------------------------------------------------------------------------
  // The weighted sums, in the order the source accumulates them: kernel row b
  // (offset l = b - radiusY) outer, kernel column a (offset k = a - radiusX) inner.

  /** The contribution of the first n cells of kernel row b to channel ch. */
  function RowPartial(ch: Channel, kernel: array2<int>, img: Image, x: int, y: int, b: int, n: int): int
    reads img, kernel
    requires NonEmpty(img)
    requires 0 <= b < kernel.Length1 && 0 <= n <= kernel.Length0
    decreases n
  {
    if n == 0 then 0
    else RowPartial(ch, kernel, img, x, y, b, n - 1) + Chan(Tap(kernel, img, x, y, n - 1, b), ch) * kernel[n - 1, b]
  }

  /** The contribution of the first m kernel rows to channel ch. */
  function Partial(ch: Channel, kernel: array2<int>, img: Image, x: int, y: int, m: int): int
    reads img, kernel
    requires NonEmpty(img)
    requires 0 <= m <= kernel.Length1
    decreases m
  {
    if m == 0 then 0
    else Partial(ch, kernel, img, x, y, m - 1) + RowPartial(ch, kernel, img, x, y, m - 1, kernel.Length0)
  }

  /** The whole weighted sum of channel ch around pixel (x, y). */
  function WeightedSum(ch: Channel, kernel: array2<int>, img: Image, x: int, y: int): int
    reads img, kernel
    requires NonEmpty(img)
  {
    Partial(ch, kernel, img, x, y, kernel.Length1)
  }

  /** MatrixFilter.calculateNewPixelColor: each channel's weighted sum, saturated into [0,255]. */
  function ConvolvePixel(kernel: array2<int>, img: Image, x: int, y: int): Color
    reads img, kernel
    requires NonEmpty(img)
  {
    Color(Clamp(WeightedSum(Red, kernel, img, x, y), 0, 255),
          Clamp(WeightedSum(Green, kernel, img, x, y), 0, 255),
          Clamp(WeightedSum(Blue, kernel, img, x, y), 0, 255))
  }

  /** Whatever the weights, every output channel lies in [0,255]: it is the
      weighted sum when that is in range, 0 below it and 255 above it. */
  lemma ConvolveSaturates(ch: Channel, kernel: array2<int>, img: Image, x: int, y: int)
    requires NonEmpty(img)
    ensures var s, out := WeightedSum(ch, kernel, img, x, y), Chan(ConvolvePixel(kernel, img, x, y), ch);
      && 0 <= out <= 255
      && (0 <= s <= 255 ==> out == s)
      && (s < 0 ==> out == 0)
      && (s > 255 ==> out == 255)
  {
    ClampSaturates(WeightedSum(ch, kernel, img, x, y), 0, 255);
  }

  /** MatrixFilter.calculateNewPixelColor, with accumulators resultR/G/B updated
      in nested loops over the offsets l (vertical) and k (horizontal). */
  method ConvolveAt(kernel: array2<int>, img: Image, x: int, y: int) returns (c: Color)
    requires OddKernel(kernel)
    requires NonEmpty(img)
    ensures c == ConvolvePixel(kernel, img, x, y)
  {
    var radiusX := kernel.Length0 / 2;
    var radiusY := kernel.Length1 / 2;
    var resultR, resultG, resultB := 0, 0, 0;
    var l := -radiusY;
    while l <= radiusY
      invariant -radiusY <= l <= radiusY + 1
      invariant resultR == Partial(Red, kernel, img, x, y, l + radiusY)
      invariant resultG == Partial(Green, kernel, img, x, y, l + radiusY)
      invariant resultB == Partial(Blue, kernel, img, x, y, l + radiusY)
    {
      var k := -radiusX;
      while k <= radiusX
        invariant -radiusX <= k <= radiusX + 1
        invariant resultR == Partial(Red, kernel, img, x, y, l + radiusY) + RowPartial(Red, kernel, img, x, y, l + radiusY, k + radiusX)
        invariant resultG == Partial(Green, kernel, img, x, y, l + radiusY) + RowPartial(Green, kernel, img, x, y, l + radiusY, k + radiusX)
        invariant resultB == Partial(Blue, kernel, img, x, y, l + radiusY) + RowPartial(Blue, kernel, img, x, y, l + radiusY, k + radiusX)
      {
        var idX := Clamp(x + k, 0, img.Length0 - 1);
        var idY := Clamp(y + l, 0, img.Length1 - 1);
        var neighborColor := img[idX, idY];
        var w := kernel[k + radiusX, l + radiusY];
        resultR := resultR + neighborColor.r * w;
        resultG := resultG + neighborColor.g * w;
        resultB := resultB + neighborColor.b * w;
        k := k + 1;
      }
      l := l + 1;
    }
    c := Color(Clamp(resultR, 0, 255), Clamp(resultG, 0, 255), Clamp(resultB, 0, 255));
  }

  // ---------------------------------------------------------------------------
  // Sums of the kernel's weights, in the same order.

  function RowWeight(kernel: array2<int>, b: int, n: int): int
    reads kernel
    requires 0 <= b < kernel.Length1 && 0 <= n <= kernel.Length0
    decreases n
  {
    if n == 0 then 0 else RowWeight(kernel, b, n - 1) + kernel[n - 1, b]
  }

  function WeightPartial(kernel: array2<int>, m: int): int
    reads kernel
    requires 0 <= m <= kernel.Length1
    decreases m
  {
    if m == 0 then 0 else WeightPartial(kernel, m - 1) + RowWeight(kernel, m - 1, kernel.Length0)
  }

  /** The sum of all weights of the kernel. */
  function WeightTotal(kernel: array2<int>): int
    reads kernel
  {
    WeightPartial(kernel, kernel.Length1)
  }

  function AbsRowWeight(kernel: array2<int>, b: int, n: int): nat
    reads kernel
    requires 0 <= b < kernel.Length1 && 0 <= n <= kernel.Length0
    decreases n
  {
    if n == 0 then 0 else AbsRowWeight(kernel, b, n - 1) + Abs(kernel[n - 1, b])
  }

  function AbsWeightPartial(kernel: array2<int>, m: int): nat
    reads kernel
    requires 0 <= m <= kernel.Length1
    decreases m
  {
    if m == 0 then 0 else AbsWeightPartial(kernel, m - 1) + AbsRowWeight(kernel, m - 1, kernel.Length0)
  }

  /** The sum of the magnitudes of all weights of the kernel. */
  function AbsWeightTotal(kernel: array2<int>): nat
    reads kernel
  {
    AbsWeightPartial(kernel, kernel.Length1)
  }

  // ---------------------------------------------------------------------------
  // Flat neighbourhoods and uniform images.

  /** Every pixel of the image is c. */
  ghost predicate Uniform(img: Image, c: Color)
    reads img
  {
    forall i, j :: 0 <= i < img.Length0 && 0 <= j < img.Length1 ==> img[i, j] == c
  }

  /** Every neighbour that the kernel weighs around (x, y) is c. */
  ghost predicate FlatAround(kernel: array2<int>, img: Image, x: int, y: int, c: Color)
    reads img
    requires NonEmpty(img)
  {
    forall a, b :: 0 <= a < kernel.Length0 && 0 <= b < kernel.Length1 ==> Tap(kernel, img, x, y, a, b) == c
  }

  /** The colour c with every channel multiplied by w and saturated. */
  function Scale(c: Color, w: int): Color
  {
    Color(Clamp(c.r * w, 0, 255), Clamp(c.g * w, 0, 255), Clamp(c.b * w, 0, 255))
  }

  lemma {:induction false} RowPartialFlat(ch: Channel, kernel: array2<int>, img: Image, x: int, y: int, b: int, n: int, c: Color)
    requires NonEmpty(img)
    requires 0 <= b < kernel.Length1 && 0 <= n <= kernel.Length0
    requires FlatAround(kernel, img, x, y, c)
    ensures RowPartial(ch, kernel, img, x, y, b, n) == Chan(c, ch) * RowWeight(kernel, b, n)
    decreases n
  {
    if n > 0 {
      RowPartialFlat(ch, kernel, img, x, y, b, n - 1, c);
      assert Tap(kernel, img, x, y, n - 1, b) == c;
      var v := Chan(c, ch);
      assert v * RowWeight(kernel, b, n - 1) + v * kernel[n - 1, b] == v * (RowWeight(kernel, b, n - 1) + kernel[n - 1, b]);
    }
  }

  lemma {:induction false} PartialFlat(ch: Channel, kernel: array2<int>, img: Image, x: int, y: int, m: int, c: Color)
    requires NonEmpty(img)
    requires 0 <= m <= kernel.Length1
    requires FlatAround(kernel, img, x, y, c)
    ensures Partial(ch, kernel, img, x, y, m) == Chan(c, ch) * WeightPartial(kernel, m)
    decreases m
  {
    if m > 0 {
      PartialFlat(ch, kernel, img, x, y, m - 1, c);
      RowPartialFlat(ch, kernel, img, x, y, m - 1, kernel.Length0, c);
      var v := Chan(c, ch);
      assert v * WeightPartial(kernel, m - 1) + v * RowWeight(kernel, m - 1, kernel.Length0)
          == v * (WeightPartial(kernel, m - 1) + RowWeight(kernel, m - 1, kernel.Length0));
    }
  }

  /** Where every weighed neighbour has colour c, each channel's weighted sum is
      the channel times the sum of the weights. */
  lemma FlatNeighbourhood(ch: Channel, kernel: array2<int>, img: Image, x: int, y: int, c: Color)
    requires NonEmpty(img)
    requires FlatAround(kernel, img, x, y, c)
    ensures WeightedSum(ch, kernel, img, x, y) == Chan(c, ch) * WeightTotal(kernel)
  {
    PartialFlat(ch, kernel, img, x, y, kernel.Length1, c);
  }

  /** Where every weighed neighbour has colour c, the output pixel is c scaled
      by the sum of the weights and saturated. */
  lemma ConvolveFlat(kernel: array2<int>, img: Image, x: int, y: int, c: Color)
    requires NonEmpty(img)
    requires FlatAround(kernel, img, x, y, c)
    ensures ConvolvePixel(kernel, img, x, y) == Scale(c, WeightTotal(kernel))
  {
    FlatNeighbourhood(Red, kernel, img, x, y, c);
    FlatNeighbourhood(Green, kernel, img, x, y, c);
    FlatNeighbourhood(Blue, kernel, img, x, y, c);
  }

  /** On a uniform image every weighed neighbour of every pixel is that colour. */
  lemma UniformIsFlat(kernel: array2<int>, img: Image, x: int, y: int, c: Color)
    requires NonEmpty(img)
    requires Uniform(img, c)
    ensures FlatAround(kernel, img, x, y, c)
  {
  }

  /** On a uniform image of colour c every output pixel is c scaled by the sum of the weights. */
  lemma ConvolveUniform(kernel: array2<int>, img: Image, x: int, y: int, c: Color)
    requires NonEmpty(img)
    requires Uniform(img, c)
    ensures ConvolvePixel(kernel, img, x, y) == Scale(c, WeightTotal(kernel))
  {
    UniformIsFlat(kernel, img, x, y, c);
    ConvolveFlat(kernel, img, x, y, c);
  }

  /** On a 1x1 image every sample collapses to the single pixel. */
  lemma ConvolveSingleton(kernel: array2<int>, img: Image, x: int, y: int)
    requires img.Length0 == 1 && img.Length1 == 1
    ensures ConvolvePixel(kernel, img, x, y) == Scale(img[0, 0], WeightTotal(kernel))
  {
    ConvolveUniform(kernel, img, x, y, img[0, 0]);
  }

  // ---------------------------------------------------------------------------
  // Magnitude of the accumulators: the values resultR/G/B take in ConvolveAt.

  lemma ProductBound(v: int, w: int)
    requires 0 <= v <= 255
    ensures Abs(v * w) <= 255 * Abs(w)
  {
  }

  lemma {:induction false} RowPartialBound(ch: Channel, kernel: array2<int>, img: Image, x: int, y: int, b: int, n: int)
    requires NonEmpty(img)
    requires 0 <= b < kernel.Length1 && 0 <= n <= kernel.Length0
    ensures Abs(RowPartial(ch, kernel, img, x, y, b, n)) <= 255 * AbsRowWeight(kernel, b, n)
    decreases n
  {
    if n > 0 {
      RowPartialBound(ch, kernel, img, x, y, b, n - 1);
      ProductBound(Chan(Tap(kernel, img, x, y, n - 1, b), ch), kernel[n - 1, b]);
    }
  }

  lemma {:induction false} PartialBound(ch: Channel, kernel: array2<int>, img: Image, x: int, y: int, m: int)
    requires NonEmpty(img)
    requires 0 <= m <= kernel.Length1
    ensures Abs(Partial(ch, kernel, img, x, y, m)) <= 255 * AbsWeightPartial(kernel, m)
    decreases m
  {
    if m > 0 {
      PartialBound(ch, kernel, img, x, y, m - 1);
      RowPartialBound(ch, kernel, img, x, y, m - 1, kernel.Length0);
    }
  }

  lemma {:induction false} AbsRowWeightMonotone(kernel: array2<int>, b: int, n: int)
    requires 0 <= b < kernel.Length1 && 0 <= n <= kernel.Length0
    ensures AbsRowWeight(kernel, b, n) <= AbsRowWeight(kernel, b, kernel.Length0)
    decreases kernel.Length0 - n
  {
    if n < kernel.Length0 {
      AbsRowWeightMonotone(kernel, b, n + 1);
    }
  }

  lemma {:induction false} AbsWeightPartialMonotone(kernel: array2<int>, m: int)
    requires 0 <= m <= kernel.Length1
    ensures AbsWeightPartial(kernel, m) <= AbsWeightTotal(kernel)
    decreases kernel.Length1 - m
  {
    if m < kernel.Length1 {
      AbsWeightPartialMonotone(kernel, m + 1);
    }
  }

  /** Every value an accumulator takes (after b whole kernel rows and n cells of
      the next) is at most 255 times the summed magnitude of the weights. */
  lemma AccumulatorBound(ch: Channel, kernel: array2<int>, img: Image, x: int, y: int, b: int, n: int)
    requires NonEmpty(img)
    requires 0 <= b < kernel.Length1 && 0 <= n <= kernel.Length0
    ensures Abs(Partial(ch, kernel, img, x, y, b) + RowPartial(ch, kernel, img, x, y, b, n)) <= 255 * AbsWeightTotal(kernel)
  {
    var done, row := Partial(ch, kernel, img, x, y, b), RowPartial(ch, kernel, img, x, y, b, n);
    var wDone, wRow := AbsWeightPartial(kernel, b), AbsRowWeight(kernel, b, n);
    PartialBound(ch, kernel, img, x, y, b);
    RowPartialBound(ch, kernel, img, x, y, b, n);
    AbsRowWeightMonotone(kernel, b, n);
    AbsWeightPartialMonotone(kernel, b + 1);
    assert wDone + wRow <= AbsWeightPartial(kernel, b + 1) <= AbsWeightTotal(kernel);
    assert Abs(done + row) <= Abs(done) + Abs(row) <= 255 * (wDone + wRow);
  }
}
