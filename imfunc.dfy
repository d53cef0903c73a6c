/** General purpose plane helpers (imfunc.c): averaging, clamped gamma correction, the
    fixed 3 x 3 Gaussian and Laplacian filters, and the squared distance of two points. */
module ImFunc {
  import opened CMath
  import opened Conv

  /** calcAverage: the mean of the n entries of image starting at off. The source divides
      by n without a guard, so n must be positive. */
  method CalcAverage(image: array<real>, off: nat, n: nat) returns (avg: real)
    requires n > 0 && off + n <= image.Length
    ensures avg == Mean(image[off..off + n])
  {
    var acc := 0.0;
    var i := 0;
    while i < n
      invariant 0 <= i <= n
      invariant acc == Sum(image[off..off + i])
    {
      assert image[off..off + i + 1] == image[off..off + i] + [image[off + i]];
      SumSnoc(image[off..off + i], image[off + i]);
      acc := acc + image[off + i];
      i := i + 1;
    }
    avg := acc / n as real;
  }

  /** The two clamping steps of correctGamma: negative values become 0, values above 1
      become 1, and values in [0, 1] are kept. */
  function Clamp01(x: real): (r: real)
    ensures 0.0 <= r <= 1.0
    ensures 0.0 <= x <= 1.0 ==> r == x
    ensures x < 0.0 ==> r == 0.0
    ensures x > 1.0 ==> r == 1.0
  {
    var lower := if x < 0.0 then 0.0 else x;
    if lower > 1.0 then 1.0 else lower
  }

  /** correctGamma: a fresh buffer with every one of the 3n entries raised to gamma and
      clamped into [0, 1]; the input is only read. */
  method CorrectGamma(image: array<real>, n: nat, gamma: real) returns (out: array<real>)
    requires 3 * n <= image.Length
    ensures fresh(out) && out.Length == 3 * n
    ensures forall i :: 0 <= i < 3 * n ==> out[i] == Clamp01(Pow(image[i], gamma))
    ensures forall i :: 0 <= i < 3 * n ==> 0.0 <= out[i] <= 1.0
  {
    var size := 3 * n;
    out := new real[size];
    var i := 0;
    while i < size
      invariant 0 <= i <= size
      invariant forall j :: 0 <= j < i ==> out[j] == Clamp01(Pow(image[j], gamma))
    {
      out[i] := Pow(image[i], gamma);
      out[i] := if out[i] < 0.0 then 0.0 else out[i];
      out[i] := if out[i] > 1.0 then 1.0 else out[i];
      i := i + 1;
    }
  }

  /** The 3 x 3 Gaussian filter of applyGaussianBlur and applyGaussianBlurRef. */
  const GaussianFilter: seq<real> := [0.0113, 0.0838, 0.0113, 0.0838, 0.6193, 0.0838, 0.0113, 0.0838, 0.0113]

  /** The 3 x 3 Laplacian filter of applyLaplacian. */
  const LaplacianFilter: seq<real> := [-1.0, -1.0, -1.0, -1.0, 8.0, -1.0, -1.0, -1.0, -1.0]

  /** The Gaussian filter's coefficients sum to 0.9997, not 1. */
  lemma GaussianFilterSum()
    ensures Sum(GaussianFilter) == 0.9997
  {
    var g := GaussianFilter;
    assert g[..8][..7][..6][..5][..4][..3][..2][..1][..0] == [];
    assert Sum(g[..1]) == 0.0113;
    assert Sum(g[..2]) == 0.0951 by { assert g[..2][..1] == g[..1]; }
    assert Sum(g[..3]) == 0.1064 by { assert g[..3][..2] == g[..2]; }
    assert Sum(g[..4]) == 0.1902 by { assert g[..4][..3] == g[..3]; }
    assert Sum(g[..5]) == 0.8095 by { assert g[..5][..4] == g[..4]; }
    assert Sum(g[..6]) == 0.8933 by { assert g[..6][..5] == g[..5]; }
    assert Sum(g[..7]) == 0.9046 by { assert g[..7][..6] == g[..6]; }
    assert Sum(g[..8]) == 0.9884 by { assert g[..8][..7] == g[..7]; }
    assert g[..9][..8] == g[..8];
    assert g[..9] == g;
  }

  /** The Laplacian filter's coefficients sum to 0. */
  lemma LaplacianFilterSum()
    ensures Sum(LaplacianFilter) == 0.0
  {
    var l := LaplacianFilter;
    assert Sum(l[..1]) == -1.0;
    assert Sum(l[..2]) == -2.0 by { assert l[..2][..1] == l[..1]; }
    assert Sum(l[..3]) == -3.0 by { assert l[..3][..2] == l[..2]; }
    assert Sum(l[..4]) == -4.0 by { assert l[..4][..3] == l[..3]; }
    assert Sum(l[..5]) == 4.0 by { assert l[..5][..4] == l[..4]; }
    assert Sum(l[..6]) == 3.0 by { assert l[..6][..5] == l[..5]; }
    assert Sum(l[..7]) == 2.0 by { assert l[..7][..6] == l[..6]; }
    assert Sum(l[..8]) == 1.0 by { assert l[..8][..7] == l[..7]; }
    assert l[..9][..8] == l[..8];
    assert l[..9] == l;
  }

  /** The blurred plane both Gaussian blur entry points compute. */
  function GaussianBlur(plane: seq<real>, rows: nat, cols: nat): (out: seq<real>)
    requires |plane| >= rows * cols
    ensures |out| == rows * cols
  {
    Correlate(plane, GaussianFilter, rows, cols, 3)
  }

  /** The Laplacian of a plane as applyLaplacian computes it. */
  function Laplacian(plane: seq<real>, rows: nat, cols: nat): (out: seq<real>)
    requires |plane| >= rows * cols
    ensures |out| == rows * cols
  {
    Correlate(plane, LaplacianFilter, rows, cols, 3)
  }

  /** Away from the one-pixel border, blurring a constant plane v gives 0.9997 v. */
  lemma GaussianBlurConstantInterior(plane: seq<real>, rows: nat, cols: nat, v: real, x: nat)
    requires |plane| >= rows * cols
    requires forall y :: 0 <= y < rows * cols ==> plane[y] == v
    requires x < rows * cols && cols > 0
    requires 1 <= x / cols < rows - 1 && 1 <= x % cols < cols - 1
    ensures GaussianBlur(plane, rows, cols)[x] == 0.9997 * v
  {
    CorrelateConstantInterior(plane, GaussianFilter, rows, cols, 3, v, x);
    assert GaussianFilter[..3 * 3] == GaussianFilter;
    SumScale(GaussianFilter, v);
    GaussianFilterSum();
  }

  /** Away from the one-pixel border, the Laplacian of a constant plane is 0. */
  lemma LaplacianConstantInterior(plane: seq<real>, rows: nat, cols: nat, v: real, x: nat)
    requires |plane| >= rows * cols
    requires forall y :: 0 <= y < rows * cols ==> plane[y] == v
    requires x < rows * cols && cols > 0
    requires 1 <= x / cols < rows - 1 && 1 <= x % cols < cols - 1
    ensures Laplacian(plane, rows, cols)[x] == 0.0
  {
    CorrelateConstantInterior(plane, LaplacianFilter, rows, cols, 3, v, x);
    assert LaplacianFilter[..3 * 3] == LaplacianFilter;
    SumScale(LaplacianFilter, v);
    LaplacianFilterSum();
  }

  /** A fresh array holding the given filter coefficients. */
  method FilterArray(coefficients: seq<real>) returns (filter: array<real>)
    ensures fresh(filter) && filter[..] == coefficients
  {
    filter := new real[|coefficients|](i requires 0 <= i < |coefficients| => coefficients[i]);
  }

  /** applyGaussianBlur: a fresh blurred copy of the plane. */
  method ApplyGaussianBlur(image: array<real>, rows: nat, cols: nat) returns (output: array<real>)
    requires rows * cols <= image.Length
    ensures fresh(output) && output[..] == GaussianBlur(image[..rows * cols], rows, cols)
  {
    var filter := FilterArray(GaussianFilter);
    output := Conv2D(image, filter, rows, cols, 3);
    assert filter[..3 * 3] == GaussianFilter;
  }

  /** applyGaussianBlurRef: blurs the plane at image[inOff..] into output[outOff..], the
      same values applyGaussianBlur returns, leaving the rest of output alone. */
  method ApplyGaussianBlurRef(image: array<real>, inOff: nat, output: array<real>, outOff: nat, rows: nat, cols: nat)
    requires inOff + rows * cols <= image.Length
    requires outOff + rows * cols <= output.Length
    modifies output
    ensures output[outOff..outOff + rows * cols] == GaussianBlur(old(image[inOff..inOff + rows * cols]), rows, cols)
    ensures forall x :: 0 <= x < output.Length && !(outOff <= x < outOff + rows * cols) ==> output[x] == old(output[x])
    ensures output[..outOff] == old(output[..outOff])
  {
    var filter := FilterArray(GaussianFilter);
    ConvHelper(image, inOff, filter, output, outOff, rows, cols, 3);
    assert filter[..3 * 3] == GaussianFilter;
  }

  /** Each colour plane of an image blurred on its own. */
  function BlurPlanes(image: seq<real>, rows: nat, cols: nat): (b: seq<real>)
    requires 3 * (rows * cols) <= |image|
    ensures |b| == 3 * (rows * cols)
  {
    var n := rows * cols;
    GaussianBlur(image[..n], rows, cols) + GaussianBlur(image[n..2 * n], rows, cols) +
    GaussianBlur(image[2 * n..3 * n], rows, cols)
  }

  /** A fresh buffer holding each colour plane's Gaussian blur, as applyUnsharpMask
      computes it with one applyGaussianBlurRef call per plane. */
  method BlurEachPlane(image: array<real>, rows: nat, cols: nat) returns (blurred: array<real>)
    requires 3 * (rows * cols) <= image.Length
    ensures fresh(blurred) && blurred[..] == BlurPlanes(image[..], rows, cols)
  {
    var n := rows * cols;
    blurred := new real[3 * n];
    ghost var img := image[..];
    ApplyGaussianBlurRef(image, 0, blurred, 0, rows, cols);
    ghost var red := blurred[..n];
    assert red == GaussianBlur(img[..n], rows, cols);
    ApplyGaussianBlurRef(image, n, blurred, n, rows, cols);
    ghost var green := blurred[n..2 * n];
    assert green == GaussianBlur(img[n..2 * n], rows, cols);
    ApplyGaussianBlurRef(image, 2 * n, blurred, 2 * n, rows, cols);
    assert blurred[..2 * n][..n] == red;
    BlurPlanesOfParts(img, blurred[..], rows, cols);
  }

  /** A buffer whose three planes are the blurs of an image's three planes is
      BlurPlanes of the image. */
  lemma BlurPlanesOfParts(image: seq<real>, b: seq<real>, rows: nat, cols: nat)
    requires 3 * (rows * cols) <= |image| && |b| == 3 * (rows * cols)
    requires b[..rows * cols] == GaussianBlur(image[..rows * cols], rows, cols)
    requires b[rows * cols..2 * (rows * cols)] == GaussianBlur(image[rows * cols..2 * (rows * cols)], rows, cols)
    requires b[2 * (rows * cols)..3 * (rows * cols)] == GaussianBlur(image[2 * (rows * cols)..3 * (rows * cols)], rows, cols)
    ensures b == BlurPlanes(image, rows, cols)
  {
    ThreePlanes(b, rows * cols);
  }

  /** applyLaplacian: a fresh plane holding the Laplacian of the plane. */
  method ApplyLaplacian(image: array<real>, rows: nat, cols: nat) returns (output: array<real>)
    requires rows * cols <= image.Length
    ensures fresh(output) && output[..] == Laplacian(image[..rows * cols], rows, cols)
  {
    var filter := FilterArray(LaplacianFilter);
    output := Conv2D(image, filter, rows, cols, 3);
    assert filter[..3 * 3] == LaplacianFilter;
  }

  /** calcNormSquare: the squared distance of (x1, y1, z1) and (x2, y2, z2). It is never
      negative and is zero exactly when the points coincide. */
  function CalcNormSquare(x1: real, x2: real, y1: real, y2: real, z1: real, z2: real): (r: real)
    ensures r >= 0.0
    ensures r == 0.0 <==> x1 == x2 && y1 == y2 && z1 == z2
  {
    SquareSign(x1 - x2);
    SquareSign(y1 - y2);
    SquareSign(z1 - z2);
    Sq(x1 - x2) + Sq(y1 - y2) + Sq(z1 - z2)
  }

  /** The squared distance does not depend on which point comes first. */
  lemma CalcNormSquareSymmetric(x1: real, x2: real, y1: real, y2: real, z1: real, z2: real)
    ensures CalcNormSquare(x1, x2, y1, y2, z1, z2) == CalcNormSquare(x2, x1, y2, y1, z2, z1)
  {
    assert Sq(x1 - x2) == Sq(x2 - x1);
    assert Sq(y1 - y2) == Sq(y2 - y1);
    assert Sq(z1 - z2) == Sq(z2 - z1);
  }
}
