/** The normalised unsharp mask of imsharp.c: the detail left after a Gaussian blur is
    converted to HSI, its intensity is histogram-equalised over 256 grey levels, and the
    result is converted back and averaged with the input image. */
module ImSharp {
  import opened CMath
  import opened Planes
  import opened Histogram
  import opened Conv
  import opened ImFunc
  import opened Hsi

  /** The grey level an intensity is counted under: C's `(int)(v * 255) % 256`. */
  function GreyBin(v: real): (b: int)
    ensures b < 256
  {
    CMod(Trunc(v * 255.0), 256)
  }

  /** Every intensity has a grey level that indexes the 256-entry tables. A negative
      grey level would index before the start of the C arrays. */
  predicate Binnable(s: seq<real>)
  {
    forall k :: 0 <= k < |s| ==> GreyBin(s[k]) >= 0
  }

  function GreyBins(s: seq<real>): (bins: seq<int>)
    requires Binnable(s)
    ensures |bins| == |s| && forall k :: 0 <= k < |s| ==> 0 <= bins[k] < 256
  {
    seq(|s|, k requires 0 <= k < |s| => GreyBin(s[k]))
  }

  /** A count of pixels out of n rescaled to a grey value out of 255, rounded: a count
      between 0 and n gives a grey value in [0, 255], and n itself gives 255. */
  function Rescale(count: int, n: nat): (grey: int)
    requires n > 0
    ensures 0 <= count <= n ==> 0 <= grey <= 255
    ensures count == n ==> grey == 255
  {
    ScaleBounds(count, n);
    CRound((count as real) * 255.0 / (n as real))
  }

  /** A count between 0 and n scales into [0, 255], and n itself to 255. */
  lemma ScaleBounds(count: int, n: nat)
    requires n > 0
    ensures 0 <= count <= n ==> 0.0 <= (count as real) * 255.0 / (n as real) <= 255.0
    ensures count == n ==> (count as real) * 255.0 / (n as real) == 255.0
  {
    if 0 <= count <= n {
      ScaleBelow(count as real, n as real, n as real);
    }
    DivSelfScaled(n as real);
  }

  /** Counts between 0 and n rescale in order into [0, 255], and n itself to 255. */
  lemma RescaleMonotoneInRange(c1: int, c2: int, n: nat)
    requires n > 0 && 0 <= c1 <= c2 <= n
    ensures 0 <= Rescale(c1, n) <= Rescale(c2, n) <= 255
    ensures Rescale(n, n) == 255
  {
    var a, b, nn := c1 as real, c2 as real, n as real;
    assert 0.0 <= a * 255.0 / nn <= b * 255.0 / nn <= 255.0 by {
      ScaleBelow(a, b, nn);
    }
    CRoundMonotone(a * 255.0 / nn, b * 255.0 / nn);
    CRoundMonotone(0.0, a * 255.0 / nn);
    CRoundMonotone(b * 255.0 / nn, 255.0);
    DivSelfScaled(nn);
  }

  lemma DivSelfScaled(n: real)
    requires n > 0.0
    ensures n * 255.0 / n == 255.0
  {
  }

  /** The new grey value of each level: the running count of the histogram up to that
      level, rescaled from n pixels to 255 and rounded. */
  function NewGrey(hist: seq<int>, n: nat): (grey: seq<int>)
    requires |hist| == 256 && n > 0
    ensures |grey| == 256
  {
    seq(256, i requires 0 <= i < 256 => Rescale(SumInt(hist[..i + 1]), n))
  }

  /** Each intensity replaced by the new grey value of its level, over 255. */
  function Remap(s: seq<real>, grey: seq<int>): (out: seq<real>)
    requires |grey| == 256 && Binnable(s)
    ensures |out| == |s|
  {
    seq(|s|, k requires 0 <= k < |s| => (grey[GreyBin(s[k])] as real) / 255.0)
  }

  /** The intensities after equalisation, when the histogram is taken over the first m of
      them and the new grey values are scaled by the number n of all of them. */
  function EqualizedWith(s: seq<real>, m: nat): (out: seq<real>)
    requires 0 < |s| && m <= |s| && Binnable(s)
    ensures |out| == |s|
  {
    Remap(s, NewGrey(CountBins(GreyBins(s[..m]), 256), |s|))
  }

  /** The equalisation as written: the histogram loop runs over the first 256 entries
      whatever the number of pixels. */
  function EqualizedAsWritten(s: seq<real>): (out: seq<real>)
    requires 256 <= |s| && Binnable(s)
    ensures |out| == |s|
  {
    EqualizedWith(s, 256)
  }

  /** The equalisation with the histogram taken over every pixel. */
  function Equalized(s: seq<real>): (out: seq<real>)
    requires 0 < |s| && Binnable(s)
    ensures |out| == |s|
  {
    EqualizedWith(s, |s|)
  }

  /** The first loop of histogramEqualization: the histogram of the grey levels of the
      first m of the n intensities at off. */
  method CountGreyLevels(intensity: array<real>, off: nat, n: nat, m: nat) returns (histogram: array<int>)
    requires m <= n && off + n <= intensity.Length
    requires Binnable(intensity[off..off + n])
    ensures fresh(histogram)
    ensures histogram[..] == CountBins(GreyBins(intensity[off..off + n][..m]), 256)
  {
    ghost var s := intensity[off..off + n];
    histogram := new int[256](_ => 0);
    var i := 0;
    while i < m
      invariant 0 <= i <= m
      invariant histogram[..] == CountBins(GreyBins(s[..i]), 256)
    {
      assert s[i] == intensity[off + i];
      var b := GreyBin(intensity[off + i]);
      assert GreyBins(s[..i + 1])[..i] == GreyBins(s[..i]);
      histogram[b] := histogram[b] + 1;
      i := i + 1;
    }
    assert s[..m] == s[..i];
  }

  /** The second loop of histogramEqualization: the running count of the histogram,
      rescaled from n pixels to a grey value out of 255 at every level. */
  method RunningGrey(histogram: array<int>, n: nat) returns (newGrey: array<int>)
    requires histogram.Length == 256 && n > 0
    ensures fresh(newGrey)
    ensures newGrey[..] == NewGrey(histogram[..], n)
  {
    ghost var hist := histogram[..];
    ghost var grey := NewGrey(hist, n);
    newGrey := new int[256];
    var cumSum := 0;
    var i := 0;
    while i < 256
      invariant 0 <= i <= 256
      invariant cumSum == SumInt(hist[..i])
      invariant forall j :: 0 <= j < i ==> newGrey[j] == grey[j]
    {
      cumSum := cumSum + histogram[i];
      assert hist[..i + 1][..i] == hist[..i];
      newGrey[i] := CRound((cumSum as real) * 255.0 / (n as real));
      i := i + 1;
    }
  }

  /** histogramEqualization with the first loop running over m entries: the histogram of
      the first m intensities, the running-sum table of new grey values, then every one
      of the n intensities remapped in place. Nothing outside the n intensities changes. */
  method Equalize(intensity: array<real>, off: nat, n: nat, m: nat)
    requires 0 < n && m <= n && off + n <= intensity.Length
    requires Binnable(intensity[off..off + n])
    modifies intensity
    ensures intensity[off..off + n] == EqualizedWith(old(intensity[off..off + n]), m)
    ensures forall k :: 0 <= k < intensity.Length && !(off <= k < off + n) ==> intensity[k] == old(intensity[k])
  {
    ghost var s := intensity[off..off + n];
    var histogram := CountGreyLevels(intensity, off, n, m);
    assert histogram[..] == CountBins(GreyBins(s[..m]), 256);
    var newGrey := RunningGrey(histogram, n);
    assert newGrey[..] == NewGrey(CountBins(GreyBins(s[..m]), 256), |s|);
    RemapInPlace(intensity, off, n, newGrey);
  }

  /** The last loop of histogramEqualization: each of the n intensities replaced by the
      new grey value of its level, over 255. */
  method RemapInPlace(intensity: array<real>, off: nat, n: nat, newGrey: array<int>)
    requires off + n <= intensity.Length && newGrey.Length == 256
    requires Binnable(intensity[off..off + n])
    modifies intensity
    ensures intensity[off..off + n] == Remap(old(intensity[off..off + n]), newGrey[..])
    ensures forall j :: 0 <= j < intensity.Length && !(off <= j < off + n) ==> intensity[j] == old(intensity[j])
  {
    ghost var s := intensity[off..off + n];
    ghost var out := Remap(s, newGrey[..]);
    var k := off;
    while k < off + n
      invariant off <= k <= off + n
      invariant forall j :: off <= j < k ==> intensity[j] == out[j - off]
      invariant forall j :: k <= j < off + n ==> intensity[j] == s[j - off]
      invariant forall j :: 0 <= j < intensity.Length && !(off <= j < off + n) ==> intensity[j] == old(intensity[j])
    {
      assert intensity[k] == s[k - off];
      assert out[k - off] == (newGrey[GreyBin(s[k - off])] as real) / 255.0;
      intensity[k] := (newGrey[GreyBin(intensity[k])] as real) / 255.0;
      k := k + 1;
    }
    assert intensity[off..off + n] == out;
  }

  /** histogramEqualization as written: the histogram samples the first 256 intensities,
      so there must be at least 256 of them. */
  method HistogramEqualizationAsWritten(intensity: array<real>, off: nat, n: nat)
    requires 256 <= n && off + n <= intensity.Length
    requires Binnable(intensity[off..off + n])
    modifies intensity
    ensures intensity[off..off + n] == EqualizedAsWritten(old(intensity[off..off + n]))
    ensures forall k :: 0 <= k < intensity.Length && !(off <= k < off + n) ==> intensity[k] == old(intensity[k])
  {
    Equalize(intensity, off, n, 256);
  }

  /** histogramEqualization with the histogram taken over all n intensities. */
  method HistogramEqualization(intensity: array<real>, off: nat, n: nat)
    requires 0 < n && off + n <= intensity.Length
    requires Binnable(intensity[off..off + n])
    modifies intensity
    ensures intensity[off..off + n] == Equalized(old(intensity[off..off + n]))
    ensures forall k :: 0 <= k < intensity.Length && !(off <= k < off + n) ==> intensity[k] == old(intensity[k])
  {
    Equalize(intensity, off, n, n);
  }

  /** The new grey values never decrease from one level to the next and, when the
      histogram counts at most n samples, lie in [0, 255]. */
  lemma NewGreyMonotoneInRange(hist: seq<int>, n: nat, i: nat, j: nat)
    requires |hist| == 256 && n > 0
    requires forall b :: 0 <= b < 256 ==> hist[b] >= 0
    requires SumInt(hist) <= n
    requires i <= j < 256
    ensures 0 <= NewGrey(hist, n)[i] <= NewGrey(hist, n)[j] <= 255
  {
    PrefixSumMonotone(hist, 0, i + 1);
    PrefixSumMonotone(hist, i + 1, j + 1);
    PrefixSumMonotone(hist, j + 1, 256);
    assert hist[..256] == hist;
    assert SumInt(hist[..0]) == 0;
    RescaleMonotoneInRange(SumInt(hist[..i + 1]), SumInt(hist[..j + 1]), n);
  }

  lemma ScaleBelow(a: real, b: real, n: real)
    requires 0.0 <= a <= b <= n && n > 0.0
    ensures 0.0 <= a * 255.0 / n <= b * 255.0 / n <= 255.0
  {
    assert b * 255.0 / n <= n * 255.0 / n;
    assert n * 255.0 / n == 255.0;
  }

  /** With the histogram over every pixel, the running count reaches n at level 255, so
      the brightest level is mapped to 255: equalisation uses the whole range. */
  lemma EqualizedReachesTop(s: seq<real>)
    requires 0 < |s| && Binnable(s)
    ensures NewGrey(CountBins(GreyBins(s[..|s|]), 256), |s|)[255] == 255
  {
    var bins := GreyBins(s[..|s|]);
    var h := CountBins(bins, 256);
    CountBinsTotal(bins, 256);
    assert h[..256] == h;
    RescaleMonotoneInRange(0, |s|, |s|);
  }

  /** Levels of intensities in [0, 1] keep their order. */
  lemma GreyBinMonotone(v: real, w: real)
    requires 0.0 <= v <= w <= 1.0
    ensures 0 <= GreyBin(v) <= GreyBin(w) <= 255
  {
    assert v * 255.0 <= w * 255.0;
    assert Trunc(w * 255.0) <= 255;
  }

  /** Whether the histogram samples every intensity or only the first m of them (the
      first 256 as written), equalisation maps intensities in [0, 1] into [0, 1] and keeps
      their order. */
  lemma EqualizedOrderedInRange(s: seq<real>, m: nat, x: nat, y: nat)
    requires 0 < |s| && m <= |s| && Binnable(s)
    requires x < |s| && y < |s| && 0.0 <= s[x] <= s[y] <= 1.0
    ensures 0.0 <= EqualizedWith(s, m)[x] <= EqualizedWith(s, m)[y] <= 1.0
  {
    var h := CountBins(GreyBins(s[..m]), 256);
    CountBinsTotal(GreyBins(s[..m]), 256);
    CountBinsNonNegative(GreyBins(s[..m]), 256);
    GreyBinMonotone(s[x], s[y]);
    NewGreyMonotoneInRange(h, |s|, GreyBin(s[x]), GreyBin(s[y]));
  }

  /** As written, a white image of 512 pixels comes out at grey level 128 of 255: only
      256 pixels are counted, so the running count tops out at half the pixels. With every
      pixel counted it stays white. */
  lemma WhiteImageAsWritten()
    ensures Binnable(seq(512, _ => 1.0))
    ensures EqualizedAsWritten(seq(512, _ => 1.0))[0] == 128.0 / 255.0
    ensures Equalized(seq(512, _ => 1.0))[0] == 1.0
  {
    var s := seq(512, _ => 1.0);
    assert GreyBin(1.0) == 255 by {
      assert Trunc(1.0 * 255.0) == 255;
    }
    assert Binnable(s);
    var h := CountBins(GreyBins(s[..256]), 256);
    CountBinsTotal(GreyBins(s[..256]), 256);
    assert h[..256] == h;
    assert NewGrey(h, 512)[255] == CRound(256.0 * 255.0 / 512.0);
    assert CRound(127.5) == 128;
    EqualizedReachesTop(s);
  }

  /** Each colour plane minus its Gaussian blur: the detail image. */
  function Detail(image: seq<real>, rows: nat, cols: nat): (d: seq<real>)
    requires 3 * (rows * cols) <= |image|
    ensures |d| == 3 * (rows * cols)
    ensures forall k :: 0 <= k < 3 * (rows * cols) ==> d[k] == image[k] - BlurPlanes(image, rows, cols)[k]
  {
    var blur := BlurPlanes(image, rows, cols);
    seq(3 * (rows * cols), k requires 0 <= k < 3 * (rows * cols) => image[k] - blur[k])
  }

  /** The HSI image of the detail. */
  function DetailHsi(image: seq<real>, rows: nat, cols: nat): (h: seq<real>)
    requires 3 * (rows * cols) <= |image|
    ensures |h| == 3 * (rows * cols)
  {
    MapPixels(Detail(image, rows, cols), rows * cols, ToHsi)
  }

  /** The detail's intensities can be binned: the condition under which the equalisation
      stays inside its tables. */
  predicate SharpenableImage(image: seq<real>, rows: nat, cols: nat)
    requires 3 * (rows * cols) <= |image|
  {
    var n := rows * cols;
    Binnable(DetailHsi(image, rows, cols)[2 * n..3 * n])
  }

  /** Blurring the plane [0, 1] of one row and two columns leaves 0.0838 on the left:
      only the right-hand neighbour's tap reads a non-zero cell. */
  lemma DarkLeftBlur(plane: seq<real>)
    requires |plane| == 2 && plane[0] == 0.0 && plane[1] == 1.0
    ensures GaussianBlur(plane, 1, 2)[0] == 0.0838
  {
    CorrelateAt(plane, GaussianFilter, 1, 2, 3, 0, 0);
    DarkLeftPadded(plane);
    DarkLeftTaps(Padded(plane, 1, 2, 3));
  }

  /** The zero-padded plane [0, 1]: three rows of four cells, all zero but cell 6,
      which holds the right-hand input. */
  lemma DarkLeftPadded(input: seq<real>)
    requires |input| == 2 && input[0] == 0.0 && input[1] == 1.0
    ensures var pad := Padded(input, 1, 2, 3);
      |pad| == 12 && pad[6] == 1.0 && forall x :: 0 <= x < 12 && x != 6 ==> pad[x] == 0.0
  {
    var pad := Padded(input, 1, 2, 3);
    forall x | 0 <= x < 12
      ensures pad[x] == if x == 6 then 1.0 else 0.0
    {
      PaddedAt(input, 1, 2, 3, x / 4, x % 4);
      assert x == (x / 4) * 4 + x % 4;
    }
  }

  /** The taps of the left cell read cells 0 to 10 of the padded plane, and only tap 5
      reads cell 6. */
  lemma DarkLeftTapIndex(t: nat)
    requires t < 9
    ensures TapIndex(0, 0, t, 3, 4) < 12
    ensures t != 5 ==> TapIndex(0, 0, t, 3, 4) != 6
  {
    var q, r := t / 3, t % 3;
    assert t == 3 * q + r;
    assert q < 3;
  }

  /** The nine taps of the left cell over the padded plane [0, 1]: only tap 5, the
      right-hand neighbour, reads a non-zero cell. */
  lemma DarkLeftTaps(pad: seq<real>)
    requires |pad| == 12 && pad[6] == 1.0 && forall x :: 0 <= x < 12 && x != 6 ==> pad[x] == 0.0
    ensures TapsInside(|pad|, 0, 0, 3, 4, 9)
    ensures CorrSum(pad, GaussianFilter, 4, 3, 0, 0, 9) == 0.0838
  {
    forall t | 0 <= t < 9
      ensures TapIndex(0, 0, t, 3, 4) < 12
      ensures t != 5 ==> pad[TapIndex(0, 0, t, 3, 4)] == 0.0
    {
      DarkLeftTapIndex(t);
    }
    CorrSumOfOneCell(pad, GaussianFilter, 4, 3, 0, 0, 9, 5);
    assert TapIndex(0, 0, 5, 3, 4) == 6;
  }

  /** In the 1 x 2 image black on the left and white on the right in every plane, the
      left pixel is darker than its blur in every plane. */
  lemma DarkLeftDetail(image: seq<real>)
    requires |image| == 6 && image[0] == image[2] == image[4] == 0.0 && image[1] == image[3] == image[5] == 1.0
    ensures PixelAt(Detail(image, 1, 2), 2, 0) == Pixel(-0.0838, -0.0838, -0.0838)
  {
    DarkLeftBlur(image[..2]);
    DarkLeftBlur(image[2..4]);
    DarkLeftBlur(image[4..6]);
    var b := BlurPlanes(image, 1, 2);
    assert b[0] == GaussianBlur(image[..2], 1, 2)[0];
    assert b[2] == GaussianBlur(image[2..4], 1, 2)[0];
    assert b[4] == GaussianBlur(image[4..6], 1, 2)[0];
    var d := Detail(image, 1, 2);
    assert d[0] == -0.0838 && d[2] == -0.0838 && d[4] == -0.0838;
  }

  /** A pixel whose three detail channels all hold v gets intensity v. */
  lemma GreyDetailIntensity(d: seq<real>, n: nat, x: nat, v: real)
    requires 3 * n <= |d| && x < n && PixelAt(d, n, x) == Pixel(v, v, v)
    ensures MapPixels(d, n, ToHsi)[2 * n + x] == v
  {
    assert PixelAt(MapPixels(d, n, ToHsi), n, x) == ToHsi(Pixel(v, v, v));
  }

  /** Take the 1 x 2 image whose three planes are each black on the left and white on
      the right, values in [0, 1] as the pipeline expects. The left pixel's detail has
      intensity -0.0838, whose grey level (int)(-0.0838 * 255) % 256 is -21: the
      histogram of histogramEqualization would be indexed before its start. */
  lemma DarkLeftEdgeNotSharpenable(image: seq<real>)
    requires |image| == 6 && image[0] == image[2] == image[4] == 0.0 && image[1] == image[3] == image[5] == 1.0
    ensures DetailHsi(image, 1, 2)[4] == -0.0838
    ensures GreyBin(-0.0838) == -21
    ensures !SharpenableImage(image, 1, 2)
  {
    DarkLeftDetail(image);
    GreyDetailIntensity(Detail(image, 1, 2), 2, 0, -0.0838);
    var h := DetailHsi(image, 1, 2);
    assert Trunc(-0.0838 * 255.0) == -21;
    var plane := h[4..6];
    assert plane[0] == -0.0838;
    assert GreyBin(plane[0]) < 0;
  }

  /** The grey level with the intensity first clamped to [0, 1]: it always indexes the
      256-entry tables, and agrees with GreyBin wherever the intensity already lies in
      [0, 1]. */
  function ClampedGreyBin(v: real): (b: int)
    ensures 0 <= b <= 255
    ensures 0.0 <= v <= 1.0 ==> b == GreyBin(v)
  {
    var c := if v < 0.0 then 0.0 else if v > 1.0 then 1.0 else v;
    GreyBinMonotone(c, 1.0);
    GreyBin(c)
  }

  /** The detail in HSI with its intensity plane equalised as written. Hue and
      saturation are those of the detail. */
  function EqualizedDetailHsi(image: seq<real>, rows: nat, cols: nat): (h: seq<real>)
    requires 256 <= rows * cols && 3 * (rows * cols) <= |image|
    requires SharpenableImage(image, rows, cols)
    ensures |h| == 3 * (rows * cols)
    ensures h[..2 * (rows * cols)] == DetailHsi(image, rows, cols)[..2 * (rows * cols)]
  {
    var n := rows * cols;
    var hsi := DetailHsi(image, rows, cols);
    hsi[..2 * n] + EqualizedAsWritten(hsi[2 * n..3 * n])
  }

  /** The entrywise mean of two images of the same size. */
  function Average(a: seq<real>, b: seq<real>): (m: seq<real>)
    requires |a| == |b|
    ensures |m| == |a|
    ensures forall k :: 0 <= k < |a| ==> m[k] == (a[k] + b[k]) / 2.0
  {
    seq(|a|, k requires 0 <= k < |a| => (a[k] + b[k]) / 2.0)
  }

  /** The sharpened image: the input averaged with the detail whose intensity plane was
      equalised. */
  function Sharpened(image: seq<real>, rows: nat, cols: nat): (out: seq<real>)
    requires 256 <= rows * cols && 3 * (rows * cols) <= |image|
    requires SharpenableImage(image, rows, cols)
    ensures |out| == 3 * (rows * cols)
  {
    var n := rows * cols;
    Average(image[..3 * n], MapPixels(EqualizedDetailHsi(image, rows, cols), n, ToRgb))
  }

  /** The first half of applyUnsharpMask: the image minus its blur, in a fresh buffer. */
  method BlurredDetail(image: array<real>, rows: nat, cols: nat) returns (blurred: array<real>)
    requires 3 * (rows * cols) <= image.Length
    ensures fresh(blurred) && blurred[..] == Detail(image[..], rows, cols)
  {
    var n := rows * cols;
    blurred := BlurEachPlane(image, rows, cols);
    ghost var blur := blurred[..];
    var i := 0;
    while i < 3 * n
      invariant 0 <= i <= 3 * n
      invariant forall k :: 0 <= k < i ==> blurred[k] == image[k] - blur[k]
      invariant forall k :: i <= k < 3 * n ==> blurred[k] == blur[k]
    {
      blurred[i] := image[i] - blurred[i];
      i := i + 1;
    }
  }

  /** The equalisation step of applyUnsharpMask on the intensity plane of an HSI image,
      with the histogram of the first 256 intensities. */
  method EqualizeIntensityPlane(hsi: array<real>, n: nat)
    requires 256 <= n && hsi.Length == 3 * n
    requires Binnable(hsi[2 * n..3 * n])
    modifies hsi
    ensures hsi[..] == old(hsi[..2 * n]) + EqualizedAsWritten(old(hsi[2 * n..3 * n]))
  {
    ghost var before := hsi[..];
    assert before[2 * n..3 * n] == hsi[2 * n..3 * n];
    HistogramEqualizationAsWritten(hsi, 2 * n, n);
    assert hsi[..] == hsi[..2 * n] + hsi[2 * n..3 * n];
    assert hsi[..2 * n] == before[..2 * n];
  }

  /** The last loop of applyUnsharpMask: each entry of sharp replaced by its mean with the
      matching entry of the input image. */
  method AverageInto(image: array<real>, sharp: array<real>)
    requires sharp.Length <= image.Length && sharp != image
    modifies sharp
    ensures sharp[..] == Average(image[..sharp.Length], old(sharp[..]))
  {
    ghost var rgb := sharp[..];
    var i := 0;
    while i < sharp.Length
      invariant 0 <= i <= sharp.Length
      invariant forall k :: 0 <= k < i ==> sharp[k] == (image[k] + rgb[k]) / 2.0
      invariant forall k :: i <= k < sharp.Length ==> sharp[k] == rgb[k]
    {
      sharp[i] := (image[i] + sharp[i]) / 2.0;
      i := i + 1;
    }
  }

  /** applyUnsharpMask: a fresh sharpened image; the input image is only read. */
  method ApplyUnsharpMask(image: array<real>, rows: nat, cols: nat) returns (sharp: array<real>)
    requires 256 <= rows * cols && 3 * (rows * cols) <= image.Length
    requires SharpenableImage(image[..], rows, cols)
    ensures fresh(sharp) && sharp[..] == Sharpened(image[..], rows, cols)
  {
    var n := rows * cols;
    var blurred := BlurredDetail(image, rows, cols);
    var hsi := Rgb2Hsi(blurred, n);
    assert hsi[..] == DetailHsi(image[..], rows, cols);
    EqualizeIntensityPlane(hsi, n);
    assert hsi[..] == EqualizedDetailHsi(image[..], rows, cols);
    sharp := Hsi2Rgb(hsi, n);
    AverageInto(image, sharp);
    assert image[..sharp.Length] == image[..][..3 * n];
  }
}
