/** The weight maps of weights.c: the Laplacian, saturation and saliency weights of an
    image, each normalised by its maximum and summed; with them the luminance options and
    the fixed RGB / XYZ / LAB colour space conversions. */
module Weights {
  import opened CMath
  import opened Planes
  import opened ImFunc

  // ---------------------------------------------------------------------------------
  // Luminance

  /** The luminance of one pixel: option 0 the standard weights, option 2 the square root
      of the weighted squares, any other option the perceived weights. The two linear
      options have weights summing to 1, so they map a grey pixel to its grey value. */
  function Luminance(option: int, c: Pixel): (l: real)
    ensures c.c0 >= 0.0 && c.c1 >= 0.0 && c.c2 >= 0.0 ==> l >= 0.0
    ensures option != 2 && c.c0 == c.c1 == c.c2 ==> l == c.c0
  {
    if option == 0 then 0.2126 * c.c0 + 0.7152 * c.c1 + 0.0722 * c.c2
    else if option == 2 then
      SquareSign(c.c0);
      SquareSign(c.c1);
      SquareSign(c.c2);
      Sqrt(0.299 * Sq(c.c0) + 0.587 * Sq(c.c1) + 0.114 * Sq(c.c2))
    else 0.299 * c.c0 + 0.587 * c.c1 + 0.114 * c.c2
  }

  /** The luminance plane of an image of n pixels. */
  function LuminancePlane(image: seq<real>, n: nat, option: int): (lum: seq<real>)
    requires 3 * n <= |image|
    ensures |lum| == n
    ensures forall x :: 0 <= x < n ==> lum[x] == Luminance(option, PixelAt(image, n, x))
  {
    seq(n, x requires 0 <= x < n => Luminance(option, PixelAt(image, n, x)))
  }

  /** calcLuminance: a fresh plane holding the luminance of every pixel. */
  method CalcLuminance(image: array<real>, n: nat, option: int) returns (lum: array<real>)
    requires 3 * n <= image.Length
    ensures fresh(lum) && lum[..] == LuminancePlane(image[..], n, option)
  {
    lum := new real[n];
    var i := 0;
    while i < n
      invariant 0 <= i <= n
      invariant forall x :: 0 <= x < i ==> lum[x] == Luminance(option, PixelAt(image[..], n, x))
    {
      assert PixelAt(image[..], n, i) == Pixel(image[i], image[n + i], image[2 * n + i]);
      lum[i] := Luminance(option, Pixel(image[i], image[n + i], image[2 * n + i]));
      i := i + 1;
    }
  }

  // ---------------------------------------------------------------------------------
  // Laplacian weight

  /** Every entry replaced by its absolute value (the ABS macro on a plain operand). */
  function AbsPlane(s: seq<real>): (r: seq<real>)
    ensures |r| == |s|
    ensures forall k :: 0 <= k < |s| ==> r[k] >= 0.0 && (r[k] == s[k] || r[k] == -s[k])
  {
    seq(|s|, k requires 0 <= k < |s| => Abs(s[k]))
  }

  /** calcLaplacianWeight: the Laplacian of the luminance plane, made non-negative in
      place. */
  method CalcLaplacianWeight(lum: array<real>, rows: nat, cols: nat) returns (w: array<real>)
    requires rows * cols <= lum.Length
    ensures fresh(w) && w[..] == AbsPlane(Laplacian(lum[..rows * cols], rows, cols))
  {
    w := ApplyLaplacian(lum, rows, cols);
    ghost var lap := w[..];
    var i := 0;
    while i < rows * cols
      invariant 0 <= i <= rows * cols
      invariant forall k :: 0 <= k < i ==> w[k] == Abs(lap[k])
      invariant forall k :: i <= k < rows * cols ==> w[k] == lap[k]
    {
      w[i] := Abs(w[i]);
      i := i + 1;
    }
  }

  // ---------------------------------------------------------------------------------
  // Saturation weight

  /** The saturation weight of one pixel: the root mean square distance of its channels
      from its luminance l. It is never negative, and is 0 when all three channels equal
      the luminance. */
  function SaturationWeight(c: Pixel, l: real): (w: real)
    ensures w >= 0.0
    ensures c.c0 == l && c.c1 == l && c.c2 == l ==> w == 0.0
  {
    Sqrt((1.0 / 3.0) * CalcNormSquare(c.c0, l, c.c1, l, c.c2, l))
  }

  function SaturationPlane(image: seq<real>, lum: seq<real>, n: nat): (w: seq<real>)
    requires 3 * n <= |image| && n <= |lum|
    ensures |w| == n
    ensures forall x :: 0 <= x < n ==> w[x] == SaturationWeight(PixelAt(image, n, x), lum[x])
  {
    seq(n, x requires 0 <= x < n => SaturationWeight(PixelAt(image, n, x), lum[x]))
  }

  /** calcSaturationWeight: a fresh plane holding every pixel's saturation weight. */
  method CalcSaturationWeight(image: array<real>, lum: array<real>, n: nat) returns (w: array<real>)
    requires 3 * n <= image.Length && n <= lum.Length
    ensures fresh(w) && w[..] == SaturationPlane(image[..], lum[..], n)
  {
    w := new real[n];
    var i := 0;
    while i < n
      invariant 0 <= i <= n
      invariant forall x :: 0 <= x < i ==> w[x] == SaturationWeight(PixelAt(image[..], n, x), lum[x])
    {
      assert PixelAt(image[..], n, i) == Pixel(image[i], image[n + i], image[2 * n + i]);
      w[i] := SaturationWeight(Pixel(image[i], image[n + i], image[2 * n + i]), lum[i]);
      i := i + 1;
    }
  }

  /** With a linear luminance option, a grey pixel has saturation weight 0. */
  lemma GreySaturationWeight(option: int, v: real)
    requires option != 2
    ensures SaturationWeight(Pixel(v, v, v), Luminance(option, Pixel(v, v, v))) == 0.0
  {
    assert Luminance(option, Pixel(v, v, v)) == v;
  }

  // ---------------------------------------------------------------------------------
  // Normalisation by the maximum

  /** The maximum entry, as normalizeWeight scans it from the left with the MAX macro:
      never below the first or the last entry. */
  function SeqMax(s: seq<real>): (m: real)
    requires |s| > 0
    ensures s[0] <= m && s[|s| - 1] <= m
  {
    if |s| == 1 then s[0] else MaxOf(SeqMax(s[..|s| - 1]), s[|s| - 1])
  }

  /** The scanned maximum is at least every entry. */
  lemma {:induction false} SeqMaxIsUpperBound(s: seq<real>, k: nat)
    requires k < |s|
    ensures s[k] <= SeqMax(s)
  {
    if k < |s| - 1 {
      SeqMaxIsUpperBound(s[..|s| - 1], k);
    }
  }

  /** The scanned maximum is one of the entries. */
  lemma {:induction false} SeqMaxAttained(s: seq<real>)
    requires |s| > 0
    ensures exists j :: 0 <= j < |s| && s[j] == SeqMax(s)
  {
    if |s| == 1 {
      assert s[0] == SeqMax(s);
    } else if SeqMax(s) == s[|s| - 1] {
      assert s[|s| - 1] == SeqMax(s);
    } else {
      SeqMaxAttained(s[..|s| - 1]);
      var j :| 0 <= j < |s| - 1 && s[..|s| - 1][j] == SeqMax(s[..|s| - 1]);
      assert s[j] == SeqMax(s);
    }
  }

  /** Every entry divided by the maximum entry. */
  function Normalized(s: seq<real>): (r: seq<real>)
    requires |s| > 0 && SeqMax(s) != 0.0
    ensures |r| == |s|
  {
    seq(|s|, k requires 0 <= k < |s| => s[k] / SeqMax(s))
  }

  /** A weight map with non-negative entries and a non-zero maximum normalises into
      [0, 1], and its maximum entry becomes 1. */
  lemma NormalizedInUnit(s: seq<real>)
    requires |s| > 0 && SeqMax(s) != 0.0
    requires forall k :: 0 <= k < |s| ==> s[k] >= 0.0
    ensures forall k :: 0 <= k < |s| ==> 0.0 <= Normalized(s)[k] <= 1.0
    ensures exists j :: 0 <= j < |s| && Normalized(s)[j] == 1.0
  {
    var m := SeqMax(s);
    SeqMaxAttained(s);
    var j :| 0 <= j < |s| && s[j] == m;
    forall k | 0 <= k < |s|
      ensures 0.0 <= Normalized(s)[k] <= 1.0
    {
      SeqMaxIsUpperBound(s, k);
      DivBetween(s[k], m);
    }
    DivBetween(m, m);
    assert Normalized(s)[j] == 1.0;
  }

  /** normalizeWeight: the maximum of the first n entries is scanned, then every one of
      them is divided by it in place. A zero maximum is an unguarded division in the
      source, so it is excluded here. */
  method NormalizeWeight(weight: array<real>, n: nat)
    requires 0 < n <= weight.Length
    requires SeqMax(weight[..n]) != 0.0
    modifies weight
    ensures weight[..n] == Normalized(old(weight[..n]))
    ensures weight[n..] == old(weight[n..])
  {
    ghost var s := weight[..n];
    var max := weight[0];
    var i := 1;
    while i < n
      invariant 1 <= i <= n
      invariant max == SeqMax(s[..i])
    {
      assert s[..i + 1][..i] == s[..i];
      max := MaxOf(max, weight[i]);
      i := i + 1;
    }
    assert s[..n] == s;
    i := 0;
    while i < n
      invariant 0 <= i <= n
      invariant forall k :: 0 <= k < i ==> weight[k] == s[k] / max
      invariant forall k :: i <= k < weight.Length ==> weight[k] == old(weight[k])
    {
      weight[i] := weight[i] / max;
      i := i + 1;
    }
  }

  // ---------------------------------------------------------------------------------
  // Colour spaces

  /** rgb2XYZ on one pixel: the fixed linear map. A grey pixel keeps its grey value as Y,
      and non-negative colours have non-negative coordinates. */
  function RgbToXyz(c: Pixel): (xyz: Pixel)
    ensures c.c0 >= 0.0 && c.c1 >= 0.0 && c.c2 >= 0.0 ==> xyz.c0 >= 0.0 && xyz.c1 >= 0.0 && xyz.c2 >= 0.0
    ensures c.c0 == c.c1 == c.c2 ==> xyz.c1 == c.c0
  {
    Pixel(0.412453 * c.c0 + 0.357580 * c.c1 + 0.180423 * c.c2,
          0.212671 * c.c0 + 0.715160 * c.c1 + 0.072169 * c.c2,
          0.019334 * c.c0 + 0.119193 * c.c1 + 0.950227 * c.c2)
  }

  /** xyz2rgb on one pixel: the fixed linear map, each channel then made non-negative by
      the ABS macro. */
  function XyzToRgb(c: Pixel): (rgb: Pixel)
    ensures rgb.c0 >= 0.0 && rgb.c1 >= 0.0 && rgb.c2 >= 0.0
  {
    Pixel(Abs(3.2404542 * c.c0 - 1.5371385 * c.c1 - 0.4985314 * c.c2),
          Abs(-0.9692660 * c.c0 + 1.8760108 * c.c1 + 0.0415560 * c.c2),
          Abs(0.0556434 * c.c0 - 0.2040259 * c.c1 + 1.0572252 * c.c2))
  }

  /** The two matrices are inverse to four decimal places: a colour with channels in
      [0, 1] comes back from XYZ within 0.0001 of itself in every channel (one lemma per
      channel). */
  lemma RoundTripRed(c: Pixel)
    requires 0.0 <= c.c0 <= 1.0 && 0.0 <= c.c1 <= 1.0 && 0.0 <= c.c2 <= 1.0
    ensures Abs(XyzToRgb(RgbToXyz(c)).c0 - c.c0) <= 0.0001
  {
    var xyz := RgbToXyz(c);
    assert 3.2404542 * xyz.c0 - 1.5371385 * xyz.c1 - 0.4985314 * xyz.c2 ==
      0.9999916681315 * c.c0 + 0.0000001900158 * c.c1 + 0.0000007230923 * c.c2;
  }

  lemma RoundTripGreen(c: Pixel)
    requires 0.0 <= c.c0 <= 1.0 && 0.0 <= c.c1 <= 1.0 && 0.0 <= c.c2 <= 1.0
    ensures Abs(XyzToRgb(RgbToXyz(c)).c1 - c.c1) <= 0.0001
  {
    var xyz := RgbToXyz(c);
    assert -0.9692660 * xyz.c0 + 1.8760108 * xyz.c1 + 0.0415560 * xyz.c2 ==
      -0.0000001329472 * c.c0 + 1.000010931756 * c.c1 - 0.0000004228808 * c.c2;
  }

  lemma RoundTripBlue(c: Pixel)
    requires 0.0 <= c.c0 <= 1.0 && 0.0 <= c.c1 <= 1.0 && 0.0 <= c.c2 <= 1.0
    ensures Abs(XyzToRgb(RgbToXyz(c)).c2 - c.c2) <= 0.0001
  {
    var xyz := RgbToXyz(c);
    assert 0.0556434 * xyz.c0 - 0.2040259 * xyz.c1 + 1.0572252 * xyz.c2 ==
      0.0000002870981 * c.c0 - 0.0000003524084 * c.c1 + 0.9999189341015 * c.c2;
  }

  /** rgb2XYZ: a fresh XYZ image. */
  method Rgb2Xyz(image: array<real>, n: nat) returns (xyz: array<real>)
    requires 3 * n <= image.Length
    ensures fresh(xyz) && xyz[..] == MapPixels(image[..], n, RgbToXyz)
  {
    xyz := MapImage(image, n, RgbToXyz);
  }

  /** xyz2rgb: a fresh RGB image with non-negative channels. */
  method Xyz2Rgb(image: array<real>, n: nat) returns (rgb: array<real>)
    requires 3 * n <= image.Length
    ensures fresh(rgb) && rgb[..] == MapPixels(image[..], n, XyzToRgb)
  {
    rgb := MapImage(image, n, XyzToRgb);
  }

  /** The reference white xyz2LAB divides by. */
  const Xn: real := 76.04
  const Yn: real := 80.0
  const Zn: real := 87.12

  /** labFunction: the cube root of a / b above the threshold 0.00856, the linear piece
      7.787 t + 16/116 below it. It depends on a and b only through a / b, and is never
      negative for a non-negative ratio. */
  function LabFunction(a: real, b: real): (f: real)
    requires b != 0.0
    ensures a / b >= 0.0 ==> f >= 0.0
    ensures a / b == 0.0 ==> f == 16.0 / 116.0
  {
    if a / b > 0.00856 then Pow(a / b, 1.0 / 3.0)
    else 7.787 * (a / b) + 16.0 / 116.0
  }

  /** The lightness xyz2LAB computes from Y. */
  function Lightness(y: real): (l: real)
    ensures y == 0.0 ==> l == 0.0
    ensures 0.0 <= y / Yn <= 0.00856 ==> 0.0 <= l <= 903.3 * 0.00856
  {
    if y / Yn > 0.00856 then 116.0 * Pow(y / Yn, 1.0 / 3.0) - 16.0
    else 903.3 * (y / Yn)
  }

  /** xyz2LAB on one pixel as written: without parentheses, a is 500 f(x) - f(y) and b is
      200 f(y) - f(z). The lightness is that of the grouped formula, while a exceeds the
      grouped a by 499 f(y) and b exceeds the grouped b by 199 f(z). */
  function XyzToLabAsWritten(c: Pixel): (lab: Pixel)
    ensures lab.c0 == XyzToLab(c).c0
    ensures lab.c1 == XyzToLab(c).c1 + 499.0 * LabFunction(c.c1, Yn)
    ensures lab.c2 == XyzToLab(c).c2 + 199.0 * LabFunction(c.c2, Zn)
  {
    Pixel(Lightness(c.c1),
          500.0 * LabFunction(c.c0, Xn) - LabFunction(c.c1, Yn),
          200.0 * LabFunction(c.c1, Yn) - LabFunction(c.c2, Zn))
  }

  /** As written, black has colour: its a and b are 499 and 199 times 16/116, not 0. */
  lemma BlackLabAsWritten()
    ensures XyzToLabAsWritten(Pixel(0.0, 0.0, 0.0)) == Pixel(0.0, 499.0 * 16.0 / 116.0, 199.0 * 16.0 / 116.0)
  {
  }

  /** xyz2LAB on one pixel with the differences grouped: a is 500 (f(x) - f(y)) and b is
      200 (f(y) - f(z)), so a vanishes exactly when f(x) = f(y) and b exactly when
      f(y) = f(z); a colour with Y = 0 has lightness 0. */
  function XyzToLab(c: Pixel): (lab: Pixel)
    ensures lab.c1 == 0.0 <==> LabFunction(c.c0, Xn) == LabFunction(c.c1, Yn)
    ensures lab.c2 == 0.0 <==> LabFunction(c.c1, Yn) == LabFunction(c.c2, Zn)
    ensures c.c1 == 0.0 ==> lab.c0 == 0.0
  {
    Pixel(Lightness(c.c1),
          500.0 * (LabFunction(c.c0, Xn) - LabFunction(c.c1, Yn)),
          200.0 * (LabFunction(c.c1, Yn) - LabFunction(c.c2, Zn)))
  }

  /** A colour proportional to the reference white has no chroma: a and b are 0. */
  lemma {:induction false} NeutralLab(c: Pixel)
    requires c.c0 / Xn == c.c1 / Yn == c.c2 / Zn
    ensures XyzToLab(c).c1 == 0.0 && XyzToLab(c).c2 == 0.0
  {
    assert LabFunction(c.c0, Xn) == LabFunction(c.c1, Yn);
    assert LabFunction(c.c1, Yn) == LabFunction(c.c2, Zn);
  }

  /** Black in particular is (0, 0, 0) in LAB. */
  lemma BlackLab()
    ensures XyzToLab(Pixel(0.0, 0.0, 0.0)) == Pixel(0.0, 0.0, 0.0)
  {
    NeutralLab(Pixel(0.0, 0.0, 0.0));
  }

  /** xyz2LAB: a fresh LAB image, each pixel converted as written. */
  method Xyz2Lab(image: array<real>, n: nat) returns (lab: array<real>)
    requires 3 * n <= image.Length
    ensures fresh(lab) && lab[..] == MapPixels(image[..], n, XyzToLabAsWritten)
  {
    lab := MapImage(image, n, XyzToLabAsWritten);
  }

  /** rgb2LAB on one pixel: to XYZ, then to LAB as written. Black keeps lightness 0 but
      gets the chroma of BlackLabAsWritten. */
  function RgbToLab(c: Pixel): (lab: Pixel)
    ensures c == Pixel(0.0, 0.0, 0.0) ==> lab == Pixel(0.0, 499.0 * 16.0 / 116.0, 199.0 * 16.0 / 116.0)
  {
    BlackLabAsWritten();
    XyzToLabAsWritten(RgbToXyz(c))
  }

  /** rgb2LAB: the RGB image converted to XYZ, then to LAB. */
  method Rgb2Lab(image: array<real>, n: nat) returns (lab: array<real>)
    requires 3 * n <= image.Length
    ensures fresh(lab) && lab[..] == MapPixels(image[..], n, RgbToLab)
  {
    var xyz := Rgb2Xyz(image, n);
    lab := Xyz2Lab(xyz, n);
    MapPixelsCompose(image[..], n, RgbToXyz, XyzToLabAsWritten, RgbToLab);
  }

  // ---------------------------------------------------------------------------------
  // Saliency weight

  /** The blurred image calcSaliencyWeight converts, as written: every call blurs the
      first colour plane, so all three planes hold the blur of the red plane. */
  function SaliencyBlurAsWritten(image: seq<real>, rows: nat, cols: nat): (b: seq<real>)
    requires 3 * (rows * cols) <= |image|
    ensures |b| == 3 * (rows * cols)
  {
    var n := rows * cols;
    GaussianBlur(image[..n], rows, cols) + GaussianBlur(image[..n], rows, cols) +
    GaussianBlur(image[..n], rows, cols)
  }

  /** The blurring loop of calcSaliencyWeight as written. */
  method BlurFirstPlaneThrice(image: array<real>, rows: nat, cols: nat) returns (blurred: array<real>)
    requires 3 * (rows * cols) <= image.Length
    ensures fresh(blurred) && blurred[..] == SaliencyBlurAsWritten(image[..], rows, cols)
  {
    var n := rows * cols;
    blurred := new real[3 * n];
    ghost var img := image[..];
    ApplyGaussianBlurRef(image, 0, blurred, 0, rows, cols);
    ghost var red := blurred[..n];
    assert red == GaussianBlur(img[..n], rows, cols);
    ApplyGaussianBlurRef(image, 0, blurred, n, rows, cols);
    ghost var green := blurred[n..2 * n];
    assert green == GaussianBlur(img[..n], rows, cols);
    ApplyGaussianBlurRef(image, 0, blurred, 2 * n, rows, cols);
    assert blurred[..2 * n][..n] == red;
    SaliencyBlurOfParts(img, blurred[..], rows, cols);
  }

  /** A buffer whose three planes are each the blur of an image's first plane is
      SaliencyBlurAsWritten of the image. */
  lemma SaliencyBlurOfParts(image: seq<real>, b: seq<real>, rows: nat, cols: nat)
    requires 3 * (rows * cols) <= |image| && |b| == 3 * (rows * cols)
    requires b[..rows * cols] == GaussianBlur(image[..rows * cols], rows, cols)
    requires b[rows * cols..2 * (rows * cols)] == GaussianBlur(image[..rows * cols], rows, cols)
    requires b[2 * (rows * cols)..3 * (rows * cols)] == GaussianBlur(image[..rows * cols], rows, cols)
    ensures b == SaliencyBlurAsWritten(image, rows, cols)
  {
    ThreePlanes(b, rows * cols);
  }

  /** The 3 x 3 image with red 1 and green and blue 0 everywhere. */
  function RedSquare(): (image: seq<real>)
    ensures |image| == 27
  {
    seq(27, k => if k < 9 then 1.0 else 0.0)
  }

  /** As written, the centre of the 3 x 3 red square has a blurred green value of 0.9997;
      blurring each plane on its own gives 0. */
  lemma SaliencyBlurAsWrittenCounterexample()
    ensures SaliencyBlurAsWritten(RedSquare(), 3, 3)[9 + 4] == 0.9997
    ensures BlurPlanes(RedSquare(), 3, 3)[9 + 4] == 0.0
  {
    var image := RedSquare();
    CentreOfConstantBlur(image[..9], 1.0);
    assert SaliencyBlurAsWritten(image, 3, 3)[9 + 4] == GaussianBlur(image[..9], 3, 3)[4];
    CentreOfConstantBlur(image[9..18], 0.0);
    assert BlurPlanes(image, 3, 3)[9 + 4] == GaussianBlur(image[9..18], 3, 3)[4];
  }

  /** The blurred centre of a constant 3 x 3 plane v is 0.9997 v. */
  lemma CentreOfConstantBlur(plane: seq<real>, v: real)
    requires |plane| == 9 && forall y :: 0 <= y < 9 ==> plane[y] == v
    ensures GaussianBlur(plane, 3, 3)[4] == 0.9997 * v
  {
    GaussianBlurConstantInterior(plane, 3, 3, v, 4);
  }

  /** The saliency weight of a LAB image: each pixel's distance from the mean colour. It
      is never negative, and is 0 at a pixel whose colour is the mean colour. */
  function Saliency(lab: seq<real>, n: nat): (w: seq<real>)
    requires 0 < n && 3 * n <= |lab|
    ensures |w| == n
    ensures forall x :: 0 <= x < n ==> w[x] >= 0.0
    ensures forall x :: 0 <= x < n && PixelAt(lab, n, x) == MeanColour(lab, n) ==> w[x] == 0.0
  {
    var m := MeanColour(lab, n);
    seq(n, x requires 0 <= x < n => Sqrt(CalcNormSquare(lab[x], m.c0, lab[n + x], m.c1, lab[2 * n + x], m.c2)))
  }

  /** The mean of each of the three planes. */
  function MeanColour(image: seq<real>, n: nat): Pixel
    requires 0 < n && 3 * n <= |image|
  {
    Pixel(Mean(image[..n]), Mean(image[n..2 * n]), Mean(image[2 * n..3 * n]))
  }

  /** The saliency weight of an RGB image as calcSaliencyWeight computes it: the
      saliency, in LAB, of the image whose three planes all hold the blur of the red
      plane. */
  function SaliencyWeight(image: seq<real>, rows: nat, cols: nat): (w: seq<real>)
    requires 0 < rows * cols && 3 * (rows * cols) <= |image|
    ensures |w| == rows * cols
  {
    var n := rows * cols;
    Saliency(MapPixels(SaliencyBlurAsWritten(image, rows, cols), n, RgbToLab), n)
  }

  /** The second half of calcSaliencyWeight: the mean of each LAB plane, then every
      pixel's distance from the mean colour in a fresh plane. */
  method DistanceFromMean(lab: array<real>, n: nat) returns (sal: array<real>)
    requires 0 < n && 3 * n <= lab.Length
    ensures fresh(sal) && sal[..] == Saliency(lab[..], n)
  {
    var lAvg := CalcAverage(lab, 0, n);
    var aAvg := CalcAverage(lab, n, n);
    var bAvg := CalcAverage(lab, 2 * n, n);
    assert lab[0..0 + n] == lab[..][..n];
    assert lab[n..n + n] == lab[..][n..2 * n];
    assert lab[2 * n..2 * n + n] == lab[..][2 * n..3 * n];
    ghost var mean := MeanColour(lab[..], n);
    assert Pixel(lAvg, aAvg, bAvg) == mean;
    sal := new real[n];
    var i := 0;
    while i < n
      invariant 0 <= i <= n
      invariant forall x :: 0 <= x < i ==> sal[x] == Saliency(lab[..], n)[x]
    {
      sal[i] := Sqrt(CalcNormSquare(lab[i], lAvg, lab[n + i], aAvg, lab[2 * n + i], bAvg));
      i := i + 1;
    }
  }

  /** calcSaliencyWeight: the red plane blurred into all three planes, that image in
      LAB, the mean of each LAB plane, then every pixel's distance from the mean. */
  method CalcSaliencyWeight(image: array<real>, rows: nat, cols: nat) returns (sal: array<real>)
    requires 0 < rows * cols && 3 * (rows * cols) <= image.Length
    ensures fresh(sal) && sal[..] == SaliencyWeight(image[..], rows, cols)
  {
    var n := rows * cols;
    var blurred := BlurFirstPlaneThrice(image, rows, cols);
    var lab := Rgb2Lab(blurred, n);
    sal := DistanceFromMean(lab, n);
  }

  // ---------------------------------------------------------------------------------
  // The combined weight

  /** The Laplacian weight of an image under a luminance option. */
  function LaplacianWeight(image: seq<real>, rows: nat, cols: nat, option: int): (w: seq<real>)
    requires 3 * (rows * cols) <= |image|
    ensures |w| == rows * cols
    ensures forall x :: 0 <= x < rows * cols ==> w[x] >= 0.0
  {
    AbsPlane(Laplacian(LuminancePlane(image, rows * cols, option), rows, cols))
  }

  /** The saturation weight of an image under a luminance option. */
  function SaturationWeightOf(image: seq<real>, n: nat, option: int): (w: seq<real>)
    requires 3 * n <= |image|
    ensures |w| == n
    ensures forall x :: 0 <= x < n ==> w[x] >= 0.0
  {
    SaturationPlane(image, LuminancePlane(image, n, option), n)
  }

  /** The three weight maps can be normalised: none has a zero maximum. */
  predicate Normalizable(image: seq<real>, rows: nat, cols: nat, option: int)
    requires 0 < rows * cols && 3 * (rows * cols) <= |image|
  {
    SeqMax(LaplacianWeight(image, rows, cols, option)) != 0.0 &&
    SeqMax(SaturationWeightOf(image, rows * cols, option)) != 0.0 &&
    SeqMax(SaliencyWeight(image, rows, cols)) != 0.0
  }

  /** The combined weight map: the sum of the three normalised maps. */
  function TotalWeight(image: seq<real>, rows: nat, cols: nat, option: int): (w: seq<real>)
    requires 0 < rows * cols && 3 * (rows * cols) <= |image|
    requires Normalizable(image, rows, cols, option)
    ensures |w| == rows * cols
  {
    SumOfMaps(Normalized(LaplacianWeight(image, rows, cols, option)),
              Normalized(SaliencyWeight(image, rows, cols)),
              Normalized(SaturationWeightOf(image, rows * cols, option)))
  }

  /** The entrywise sum of three maps of the same size. */
  function SumOfMaps(a: seq<real>, b: seq<real>, c: seq<real>): (s: seq<real>)
    requires |a| == |b| == |c|
    ensures |s| == |a|
    ensures forall x :: 0 <= x < |a| ==> s[x] == a[x] + b[x] + c[x]
  {
    seq(|a|, x requires 0 <= x < |a| => a[x] + b[x] + c[x])
  }

  /** The summing loop of getWeights. */
  method SumWeightMaps(wLap: array<real>, wSal: array<real>, wSat: array<real>) returns (total: array<real>)
    requires wLap.Length == wSal.Length == wSat.Length
    ensures fresh(total) && total[..] == SumOfMaps(wLap[..], wSal[..], wSat[..])
  {
    total := new real[wLap.Length];
    var i := 0;
    while i < wLap.Length
      invariant 0 <= i <= wLap.Length
      invariant forall x :: 0 <= x < i ==> total[x] == wLap[x] + wSal[x] + wSat[x]
    {
      total[i] := wLap[i] + wSal[i] + wSat[i];
      i := i + 1;
    }
  }

  /** Every entry of the combined weight map lies in [0, 3]. */
  lemma TotalWeightInRange(image: seq<real>, rows: nat, cols: nat, option: int)
    requires 0 < rows * cols && 3 * (rows * cols) <= |image|
    requires Normalizable(image, rows, cols, option)
    ensures forall x :: 0 <= x < rows * cols ==> 0.0 <= TotalWeight(image, rows, cols, option)[x] <= 3.0
  {
    var lap := LaplacianWeight(image, rows, cols, option);
    var sal := SaliencyWeight(image, rows, cols);
    var sat := SaturationWeightOf(image, rows * cols, option);
    SumOfNormalizedInRange(lap, sal, sat);
  }

  /** Three non-negative maps of the same size, each with a non-zero maximum, normalise
      and add up into [0, 3]. */
  lemma SumOfNormalizedInRange(a: seq<real>, b: seq<real>, c: seq<real>)
    requires 0 < |a| == |b| == |c| && SeqMax(a) != 0.0 && SeqMax(b) != 0.0 && SeqMax(c) != 0.0
    requires forall x :: 0 <= x < |a| ==> a[x] >= 0.0 && b[x] >= 0.0 && c[x] >= 0.0
    ensures forall x :: 0 <= x < |a| ==> 0.0 <= SumOfMaps(Normalized(a), Normalized(b), Normalized(c))[x] <= 3.0
  {
    NormalizedInUnit(a);
    NormalizedInUnit(b);
    NormalizedInUnit(c);
  }

  /** Lines 20-21 of getWeights: the Laplacian weight, normalised. */
  method NormalizedLaplacianWeight(ghost image: seq<real>, lum: array<real>, rows: nat, cols: nat, option: int)
    returns (w: array<real>)
    requires 0 < rows * cols && 3 * (rows * cols) <= |image|
    requires lum[..] == LuminancePlane(image, rows * cols, option)
    requires SeqMax(LaplacianWeight(image, rows, cols, option)) != 0.0
    ensures fresh(w) && w[..] == Normalized(LaplacianWeight(image, rows, cols, option))
  {
    assert lum[..rows * cols] == lum[..];
    w := CalcLaplacianWeight(lum, rows, cols);
    assert w[..rows * cols] == w[..];
    NormalizeWeight(w, rows * cols);
    assert w[..rows * cols] == w[..];
  }

  /** Lines 24-25 of getWeights: the saturation weight, normalised. */
  method NormalizedSaturationWeight(image: array<real>, lum: array<real>, n: nat, option: int)
    returns (w: array<real>)
    requires 0 < n && 3 * n <= image.Length
    requires lum[..] == LuminancePlane(image[..], n, option)
    requires SeqMax(SaturationWeightOf(image[..], n, option)) != 0.0
    ensures fresh(w) && w[..] == Normalized(SaturationWeightOf(image[..], n, option))
  {
    w := CalcSaturationWeight(image, lum, n);
    assert w[..n] == w[..];
    NormalizeWeight(w, n);
    assert w[..n] == w[..];
  }

  /** Lines 31-32 of getWeights: the saliency weight, normalised. */
  method NormalizedSaliencyWeight(image: array<real>, rows: nat, cols: nat) returns (w: array<real>)
    requires 0 < rows * cols && 3 * (rows * cols) <= image.Length
    requires SeqMax(SaliencyWeight(image[..], rows, cols)) != 0.0
    ensures fresh(w) && w[..] == Normalized(SaliencyWeight(image[..], rows, cols))
  {
    w := CalcSaliencyWeight(image, rows, cols);
    NormalizeWhole(w);
  }

  /** normalizeWeight over a whole buffer. */
  method NormalizeWhole(w: array<real>)
    requires w.Length > 0 && SeqMax(w[..]) != 0.0
    modifies w
    ensures w[..] == Normalized(old(w[..]))
  {
    assert w[..w.Length] == w[..];
    NormalizeWeight(w, w.Length);
    assert w[..w.Length] == w[..];
  }

  /** getWeights: the three weight maps, each normalised, summed into a fresh map. */
  method GetWeights(image: array<real>, rows: nat, cols: nat, option: int) returns (total: array<real>)
    requires 0 < rows * cols && 3 * (rows * cols) <= image.Length
    requires Normalizable(image[..], rows, cols, option)
    ensures fresh(total) && total[..] == TotalWeight(image[..], rows, cols, option)
  {
    var n := rows * cols;
    var lum := CalcLuminance(image, n, option);
    var wLap := NormalizedLaplacianWeight(image[..], lum, rows, cols, option);
    var wSat := NormalizedSaturationWeight(image, lum, n, option);
    var wSal := NormalizedSaliencyWeight(image, rows, cols);
    total := SumWeightMaps(wLap, wSal, wSat);
  }
}
