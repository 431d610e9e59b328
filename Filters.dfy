/** The Filter abstraction: the closed set of filter kinds, the per-pixel
    dispatch calculateNewPixelColor and the shared driver processImage. */
module Filters {
  import opened Pixels
  import opened PointFilters
  import opened MatrixFilters

  datatype Option<T> = None | Some(value: T)

  /** InvertFilter, BrightnessFilter, and MatrixFilter with its kernel
      (SobelFilter and SharpnessFilter are MatrixFilters with preset kernels). */
  datatype Filter = Invert | Brightness | Matrix(kernel: array2<int>)

  /** What a filter may be used with: a MatrixFilter's kernel has odd dimensions. */
  predicate FilterValid(f: Filter)
  {
    f.Matrix? ==> OddKernel(f.kernel)
  }

  /** The heap a filter reads besides the source image. */
  function Frame(f: Filter): set<object>
  {
    if f.Matrix? then {f.kernel} else {}
  }

  /** The MatrixFilter(float[,]) constructor, rejecting a kernel that has an
      even (or zero) dimension instead of storing it. */
  function NewMatrixFilter(kernel: array2<int>): (r: Option<Filter>)
    ensures r.Some? <==> OddKernel(kernel)
    ensures r.Some? ==> r.value == Matrix(kernel) && FilterValid(r.value)
  {
    if kernel.Length0 % 2 == 1 && kernel.Length1 % 2 == 1 then Some(Matrix(kernel)) else None
  }

  /** Every kernel index an accepted MatrixFilter visits lies inside its kernel. */
  lemma AcceptedKernelIndicesInRange(kernel: array2<int>, k: int, l: int)
    requires NewMatrixFilter(kernel).Some?
    requires -Radius(kernel.Length0) <= k <= Radius(kernel.Length0)
    requires -Radius(kernel.Length1) <= l <= Radius(kernel.Length1)
    ensures 0 <= k + Radius(kernel.Length0) < kernel.Length0
    ensures 0 <= l + Radius(kernel.Length1) < kernel.Length1
  {
    KernelIndexInRange(kernel.Length0, k);
    KernelIndexInRange(kernel.Length1, l);
  }

  /** The colour filter f computes for pixel (x, y) of the source image. */
  function ComputePixel(f: Filter, src: Image, x: int, y: int): Color
    reads src, Frame(f)
    requires 0 <= x < src.Length0 && 0 <= y < src.Length1
  {
    match f
    case Invert => InvertColor(src[x, y])
    case Brightness => BrightnessColor(src[x, y])
    case Matrix(kernel) => ConvolvePixel(kernel, src, x, y)
  }

  /** A point filter reads the source pixel at (x, y) and nothing else. */
  lemma PointFilterIsLocal(f: Filter, src: Image, other: Image, x: int, y: int)
    requires !f.Matrix?
    requires 0 <= x < src.Length0 && 0 <= y < src.Length1
    requires 0 <= x < other.Length0 && 0 <= y < other.Length1
    requires src[x, y] == other[x, y]
    ensures ComputePixel(f, src, x, y) == ComputePixel(f, other, x, y)
  {
  }

  /** calculateNewPixelColor, dispatched on the filter kind. */
  method CalculateNewPixelColor(f: Filter, src: Image, x: int, y: int) returns (c: Color)
    requires FilterValid(f)
    requires 0 <= x < src.Length0 && 0 <= y < src.Length1
    ensures c == ComputePixel(f, src, x, y)
  {
    match f
    case Invert =>
      c := InvertColor(src[x, y]);
    case Brightness =>
      c := BrightnessColor(src[x, y]);
    case Matrix(kernel) =>
      c := ConvolveAt(kernel, src, x, y);
  }

  // ---------------------------------------------------------------------------
  // Cancellation and progress. cancel[i] is the value of CancellationPending
  // when it is polled before column i.

  /** The first column at which cancellation is pending, or |cancel| if none. */
  function FirstCancel(cancel: seq<bool>): (c: nat)
    ensures c <= |cancel|
    ensures forall i :: 0 <= i < c ==> !cancel[i]
    ensures c < |cancel| ==> cancel[c]
  {
    if cancel == [] then 0
    else if cancel[0] then 0
    else 1 + FirstCancel(cancel[1..])
  }

  predicate Cancelled(cancel: seq<bool>)
  {
    FirstCancel(cancel) < |cancel|
  }

  /** The number of columns whose progress is reported: all of them, or up to
      and including the one at which cancellation is seen. */
  function ColumnsStarted(cancel: seq<bool>): nat
  {
    if Cancelled(cancel) then FirstCancel(cancel) + 1 else |cancel|
  }

  /** The progress log: one entry per column started, the column's index. */
  function ProgressLog(cancel: seq<bool>): seq<int>
  {
    seq(ColumnsStarted(cancel), i => i)
  }

  /** The pass is cancelled exactly when some column's poll sees cancellation. */
  lemma CancelledIffSomeFlag(cancel: seq<bool>)
    ensures Cancelled(cancel) <==> exists i :: 0 <= i < |cancel| && cancel[i]
  {
  }

  /** Progress is reported for columns 0, 1, ... in increasing order, each at
      most once, and never for a column beyond the image. */
  lemma ProgressIncreasing(cancel: seq<bool>)
    ensures |ProgressLog(cancel)| <= |cancel|
    ensures forall i :: 0 <= i < |ProgressLog(cancel)| ==> ProgressLog(cancel)[i] == i
    ensures forall i, j :: 0 <= i < j < |ProgressLog(cancel)| ==> ProgressLog(cancel)[i] < ProgressLog(cancel)[j]
  {
  }

  /** Cancellation pending before the first column: only column 0 is reported. */
  lemma CancelBeforeFirstColumn(cancel: seq<bool>)
    requires |cancel| > 0 && cancel[0]
    ensures Cancelled(cancel) && ProgressLog(cancel) == [0]
  {
  }

  /** The inner loop of processImage: fills column i of the result, one
      SetPixel per row, and leaves the other columns as they were. */
  method FillColumn(f: Filter, src: Image, result: Image, i: int)
    requires FilterValid(f)
    requires 0 <= i < src.Length0
    requires result.Length0 == src.Length0 && result.Length1 == src.Length1
    requires result != src
    modifies result
    ensures forall a, b :: 0 <= a < result.Length0 && 0 <= b < result.Length1 && a != i ==> result[a, b] == old(result[a, b])
    ensures forall b :: 0 <= b < src.Length1 ==> result[i, b] == ComputePixel(f, src, i, b)
  {
    var j := 0;
    while j < src.Length1
      invariant 0 <= j <= src.Length1
      invariant forall a, b :: 0 <= a < result.Length0 && 0 <= b < result.Length1 && a != i ==> result[a, b] == old(result[a, b])
      invariant forall b :: 0 <= b < j ==> result[i, b] == ComputePixel(f, src, i, b)
    {
      var c := CalculateNewPixelColor(f, src, i, j);
      result[i, j] := c;
      j := j + 1;
    }
  }

  /** Filter.processImage: allocates a result of the source's size and fills it
      column by column (outer i over the width, inner j over the height). Before
      each column it reports progress, then polls cancellation and, if it is
      pending, gives up and returns null. */
  method ProcessImage(f: Filter, src: Image, cancel: seq<bool>) returns (result: array2?<Color>, progress: seq<int>)
    requires FilterValid(f)
    requires NonEmpty(src)
    requires |cancel| == src.Length0
    ensures unchanged(src) && unchanged(Frame(f))
    ensures progress == ProgressLog(cancel)
    ensures result == null <==> Cancelled(cancel)
    ensures result != null ==>
      && fresh(result)
      && result.Length0 == src.Length0 && result.Length1 == src.Length1
      && forall i, j :: 0 <= i < src.Length0 && 0 <= j < src.Length1 ==> result[i, j] == ComputePixel(f, src, i, j)
  {
    var resultImage := new Color[src.Length0, src.Length1];
    progress := [];
    var i := 0;
    while i < src.Length0
      invariant 0 <= i <= src.Length0
      invariant forall c :: 0 <= c < i ==> !cancel[c]
      invariant progress == seq(i, c => c)
      invariant forall a, b :: 0 <= a < i && 0 <= b < src.Length1 ==> resultImage[a, b] == ComputePixel(f, src, a, b)
    {
      progress := progress + [i];
      if cancel[i] {
        assert FirstCancel(cancel) == i;
        return null, progress;
      }
      FillColumn(f, src, resultImage, i);
      i := i + 1;
    }
    assert FirstCancel(cancel) == |cancel|;
    return resultImage, progress;
  }
}
