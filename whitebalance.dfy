/** White balance (whitebalance.c): red and blue channel compensation against the green
    channel, the simple grey world scaling, sRGB linearisation, and the full grey world
    pipeline that adapts the image from a fixed illuminant to the D65 white with the
    Bradford transform. */
module WhiteBalance {
  import opened CMath
  import opened Planes
  import opened ImFunc
  import opened Weights
  import opened FlatMatrix
  import opened Illuminant
  import opened Bradford

  // ---------------------------------------------------------------------------------
  // Channel compensation

  /** One compensated value: v + alpha (avgG - avgC) (1 - v) g, where g is the green value
      of the same pixel and avgC the average of v's own channel. */
  function Compensated(v: real, g: real, alpha: real, avgG: real, avgC: real): (r: real)
    ensures r == v <==> alpha * (avgG - avgC) * g == 0.0 || v == 1.0
  {
    var k := alpha * (avgG - avgC) * g;
    var w := 1.0 - v;
    assert alpha * (avgG - avgC) * (1.0 - v) * g == k * w;
    assert k * w == 0.0 ==> k == 0.0 || w == 0.0 by {
      if k * w == 0.0 && k != 0.0 { assert w == (k * w) / k; }
    }
    v + alpha * (avgG - avgC) * (1.0 - v) * g
  }

  /** The value is left alone when there is no gain, when the channel is as bright as green
      on average, when the value is already 1 or when the pixel has no green. */
  lemma CompensationFixes(v: real, g: real, alpha: real, avgG: real, avgC: real)
    requires alpha == 0.0 || avgG == avgC || v == 1.0 || g == 0.0
    ensures Compensated(v, g, alpha, avgG, avgC) == v
  {
  }

  /** With a gain alpha (avgG - avgC) g in [0, 1], a value in [0, 1] is raised and stays
      at most 1. */
  lemma CompensationStaysInUnit(v: real, g: real, alpha: real, avgG: real, avgC: real)
    requires 0.0 <= v <= 1.0
    requires 0.0 <= alpha * (avgG - avgC) * g <= 1.0
    ensures v <= Compensated(v, g, alpha, avgG, avgC) <= 1.0
  {
    var k := alpha * (avgG - avgC) * g;
    var w := 1.0 - v;
    assert Compensated(v, g, alpha, avgG, avgC) == v + k * w;
    assert 0.0 <= k * w;
    assert k * w <= w by {
      assert w - k * w == (1.0 - k) * w;
      assert 0.0 <= (1.0 - k) * w;
    }
  }

  /** A compensated plane: every value against the green value of the same pixel. */
  function CompensatePlane(c: seq<real>, g: seq<real>, alpha: real, avgG: real, avgC: real): (r: seq<real>)
    requires |c| == |g|
    ensures |r| == |c|
    ensures forall i :: 0 <= i < |c| ==> r[i] == Compensated(c[i], g[i], alpha, avgG, avgC)
  {
    seq(|c|, i requires 0 <= i < |c| => Compensated(c[i], g[i], alpha, avgG, avgC))
  }

  /** The image after both compensation loops with the given channel averages: red and
      blue compensated, green kept. */
  function CompensateWith(image: seq<real>, n: nat, alpha: real, avgR: real, avgG: real, avgB: real): (out: seq<real>)
    requires |image| == 3 * n
    ensures |out| == 3 * n
  {
    var green := PlaneOf(image, n, 1);
    CompensatePlane(PlaneOf(image, n, 0), green, alpha, avgG, avgR) + green +
    CompensatePlane(PlaneOf(image, n, 2), green, alpha, avgG, avgB)
  }

  /** The image after applyWhiteBalance's compensation: the averages are those of the
      original planes. */
  function Compensate(image: seq<real>, n: nat, alpha: real): (out: seq<real>)
    requires |image| == 3 * n && n > 0
    ensures |out| == 3 * n
  {
    CompensateWith(image, n, alpha, Mean(PlaneOf(image, n, 0)), Mean(PlaneOf(image, n, 1)), Mean(PlaneOf(image, n, 2)))
  }

  /** The green value of every pixel is kept, and its red and blue values are compensated
      from their own old value, the pixel's green value and the averages alone. */
  lemma CompensateWithAt(image: seq<real>, n: nat, alpha: real, avgR: real, avgG: real, avgB: real, x: nat)
    requires |image| == 3 * n && x < n
    ensures PixelAt(CompensateWith(image, n, alpha, avgR, avgG, avgB), n, x) ==
      Pixel(Compensated(image[x], image[n + x], alpha, avgG, avgR), image[n + x], Compensated(image[2 * n + x], image[n + x], alpha, avgG, avgB))
  {
  }

  /** Without gain the image is unchanged. */
  lemma CompensateWithoutGain(image: seq<real>, n: nat)
    requires |image| == 3 * n && n > 0
    ensures Compensate(image, n, 0.0) == image
  {
    var out := Compensate(image, n, 0.0);
    forall x | 0 <= x < n
      ensures PixelAt(out, n, x) == PixelAt(image, n, x)
    {
      CompensateWithAt(image, n, 0.0, Mean(PlaneOf(image, n, 0)), Mean(PlaneOf(image, n, 1)), Mean(PlaneOf(image, n, 2)), x);
    }
    PixelsDetermineImage(out, image, n);
  }

  /** An image whose three planes already have the same average is unchanged. */
  lemma CompensateBalanced(image: seq<real>, n: nat, alpha: real)
    requires |image| == 3 * n && n > 0
    requires Mean(PlaneOf(image, n, 0)) == Mean(PlaneOf(image, n, 1)) == Mean(PlaneOf(image, n, 2))
    ensures Compensate(image, n, alpha) == image
  {
    var out := Compensate(image, n, alpha);
    forall x | 0 <= x < n
      ensures PixelAt(out, n, x) == PixelAt(image, n, x)
    {
      CompensateWithAt(image, n, alpha, Mean(PlaneOf(image, n, 0)), Mean(PlaneOf(image, n, 1)), Mean(PlaneOf(image, n, 2)), x);
    }
    PixelsDetermineImage(out, image, n);
  }

  /** One compensation loop over the red (off = 0) or blue (off = 2n) plane, reading the
      green plane at gOff and the given averages. */
  method CompensatePlaneInPlace(image: array<real>, off: nat, gOff: nat, n: nat, alpha: real, avgG: real, avgC: real)
    requires off + n <= image.Length && gOff + n <= image.Length
    requires off + n <= gOff || gOff + n <= off
    modifies image
    ensures forall j :: off <= j < off + n ==> image[j] == Compensated(old(image[j]), old(image[gOff + (j - off)]), alpha, avgG, avgC)
    ensures forall j :: 0 <= j < image.Length && !(off <= j < off + n) ==> image[j] == old(image[j])
  {
    var k := off;
    while k < off + n
      invariant off <= k <= off + n
      invariant forall j :: off <= j < k ==> image[j] == Compensated(old(image[j]), old(image[gOff + (j - off)]), alpha, avgG, avgC)
      invariant forall j :: 0 <= j < image.Length && !(off <= j < k) ==> image[j] == old(image[j])
    {
      image[k] := Compensated(image[k], image[gOff + (k - off)], alpha, avgG, avgC);
      k := k + 1;
    }
  }

  /** The red loop and the blue loop of applyWhiteBalance, with the averages taken before
      either loop. */
  method CompensateRedBlue(image: array<real>, n: nat, alpha: real, avgR: real, avgG: real, avgB: real)
    requires image.Length == 3 * n
    modifies image
    ensures image[..] == CompensateWith(old(image[..]), n, alpha, avgR, avgG, avgB)
  {
    ghost var image0 := image[..];
    CompensatePlaneInPlace(image, 0, n, n, alpha, avgG, avgR);
    ghost var image1 := image[..];
    CompensatePlaneInPlace(image, 2 * n, n, n, alpha, avgG, avgB);
    forall x | 0 <= x < n
      ensures PixelAt(image[..], n, x) == PixelAt(CompensateWith(image0, n, alpha, avgR, avgG, avgB), n, x)
    {
      CompensateWithAt(image0, n, alpha, avgR, avgG, avgB, x);
      assert image1[x] == Compensated(image0[x], image0[n + x], alpha, avgG, avgR);
      assert image1[n + x] == image0[n + x] && image1[2 * n + x] == image0[2 * n + x];
      assert image[x] == image1[x] && image[n + x] == image1[n + x];
      assert image[2 * n + x] == Compensated(image1[2 * n + x], image1[n + x], alpha, avgG, avgB);
    }
    PixelsDetermineImage(image[..], CompensateWith(image0, n, alpha, avgR, avgG, avgB), n);
  }

  /** calcAverage of plane c. */
  method PlaneAverage(image: array<real>, n: nat, c: nat) returns (avg: real)
    requires image.Length == 3 * n && n > 0 && c < 3
    ensures avg == Mean(PlaneOf(image[..], n, c))
  {
    MulLeq(c + 1, 3, n);
    avg := CalcAverage(image, c * n, n);
    assert image[c * n..c * n + n] == PlaneOf(image[..], n, c);
  }

  /** applyWhiteBalance's compensation: the three averages, then the red and blue loops. */
  method CompensateChannels(image: array<real>, n: nat, alpha: real)
    requires image.Length == 3 * n && n > 0
    modifies image
    ensures image[..] == Compensate(old(image[..]), n, alpha)
  {
    var avgR := PlaneAverage(image, n, 0);
    var avgG := PlaneAverage(image, n, 1);
    var avgB := PlaneAverage(image, n, 2);
    CompensateRedBlue(image, n, alpha, avgR, avgG, avgB);
  }

  // ---------------------------------------------------------------------------------
  // Simple grey world

  /** The factor applyGreyWorld multiplies a channel by: grey (127.5 of 255) over the
      channel's average. */
  function GreyWorldFactor(avg: real): (f: real)
    requires avg != 0.0
    ensures f * avg == 0.5
    ensures avg > 0.0 ==> f > 0.0
  {
    127.5 / avg / 255.0
  }

  /** Every plane's average is non-zero (the source divides by it without a guard). */
  predicate MeansNonZero(image: seq<real>, n: nat)
    requires |image| == 3 * n && n > 0
  {
    Mean(PlaneOf(image, n, 0)) != 0.0 && Mean(PlaneOf(image, n, 1)) != 0.0 && Mean(PlaneOf(image, n, 2)) != 0.0
  }

  /** A plane scaled to grey. */
  function ScaledToGrey(p: seq<real>): (r: seq<real>)
    requires |p| > 0 && Mean(p) != 0.0
    ensures |r| == |p|
  {
    Scale(p, GreyWorldFactor(Mean(p)))
  }

  /** The image after applyGreyWorld: each plane scaled by its own factor. */
  function GreyWorld(image: seq<real>, n: nat): (out: seq<real>)
    requires |image| == 3 * n && n > 0 && MeansNonZero(image, n)
    ensures |out| == 3 * n
  {
    ScaledToGrey(PlaneOf(image, n, 0)) + ScaledToGrey(PlaneOf(image, n, 1)) + ScaledToGrey(PlaneOf(image, n, 2))
  }

  /** A plane scaled to grey has average 0.5, and each value keeps its ratio to the old
      average. */
  lemma ScaledToGreyMean(p: seq<real>)
    requires |p| > 0 && Mean(p) != 0.0
    ensures Mean(ScaledToGrey(p)) == 0.5
    ensures forall i :: 0 <= i < |p| ==> ScaledToGrey(p)[i] == 0.5 * (p[i] / Mean(p))
  {
    var f := GreyWorldFactor(Mean(p));
    MeanScale(p, f);
    assert f == 0.5 / Mean(p);
  }

  /** After applyGreyWorld every plane has average 0.5. */
  lemma GreyWorldMeans(image: seq<real>, n: nat)
    requires |image| == 3 * n && n > 0 && MeansNonZero(image, n)
    ensures Mean(PlaneOf(GreyWorld(image, n), n, 0)) == 0.5
    ensures Mean(PlaneOf(GreyWorld(image, n), n, 1)) == 0.5
    ensures Mean(PlaneOf(GreyWorld(image, n), n, 2)) == 0.5
  {
    var out := GreyWorld(image, n);
    assert PlaneOf(out, n, 0) == ScaledToGrey(PlaneOf(image, n, 0));
    assert PlaneOf(out, n, 1) == ScaledToGrey(PlaneOf(image, n, 1));
    assert PlaneOf(out, n, 2) == ScaledToGrey(PlaneOf(image, n, 2));
    ScaledToGreyMean(PlaneOf(image, n, 0));
    ScaledToGreyMean(PlaneOf(image, n, 1));
    ScaledToGreyMean(PlaneOf(image, n, 2));
  }

  /** Pixel x after applyGreyWorld: each channel value multiplied by its plane's factor. */
  lemma GreyWorldAt(image: seq<real>, n: nat, x: nat)
    requires |image| == 3 * n && n > 0 && MeansNonZero(image, n) && x < n
    ensures PixelAt(GreyWorld(image, n), n, x) ==
      Pixel(ScaledToGrey(PlaneOf(image, n, 0))[x], ScaledToGrey(PlaneOf(image, n, 1))[x], ScaledToGrey(PlaneOf(image, n, 2))[x])
  {
  }

  /** The inner loop of applyGreyWorld: every value of one plane multiplied by the factor. */
  method ScalePlaneInPlace(image: array<real>, off: nat, n: nat, factor: real)
    requires off + n <= image.Length
    modifies image
    ensures forall j :: off <= j < off + n ==> image[j] == old(image[j]) * factor
    ensures forall j :: 0 <= j < image.Length && !(off <= j < off + n) ==> image[j] == old(image[j])
  {
    var k := off;
    while k < off + n
      invariant off <= k <= off + n
      invariant forall j :: off <= j < k ==> image[j] == old(image[j]) * factor
      invariant forall j :: 0 <= j < image.Length && !(off <= j < k) ==> image[j] == old(image[j])
    {
      image[k] := image[k] * factor;
      k := k + 1;
    }
  }

  /** One channel of applyGreyWorld: its average, then the plane scaled by the factor. */
  method GreyWorldChannel(image: array<real>, n: nat, c: nat)
    requires image.Length == 3 * n && n > 0 && c < 3
    requires Mean(PlaneOf(image[..], n, c)) != 0.0
    modifies image
    ensures forall j :: c * n <= j < c * n + n ==> image[j] == ScaledToGrey(PlaneOf(old(image[..]), n, c))[j - c * n]
    ensures forall j :: 0 <= j < image.Length && !(c * n <= j < c * n + n) ==> image[j] == old(image[j])
  {
    var scale := PlaneAverage(image, n, c);
    MulLeq(c + 1, 3, n);
    ScalePlaneInPlace(image, c * n, n, GreyWorldFactor(scale));
  }

  /** applyGreyWorld: each of the three planes scaled in turn, so that its average becomes
      0.5 (GreyWorldMeans). */
  method ApplyGreyWorld(image: array<real>, n: nat)
    requires image.Length == 3 * n && n > 0 && MeansNonZero(image[..], n)
    modifies image
    ensures image[..] == GreyWorld(old(image[..]), n)
  {
    ghost var image0 := image[..];
    ghost var p0, p1, p2 := ScaledToGrey(PlaneOf(image0, n, 0)), ScaledToGrey(PlaneOf(image0, n, 1)), ScaledToGrey(PlaneOf(image0, n, 2));
    GreyWorldChannel(image, n, 0);
    ghost var image1 := image[..];
    assert PlaneOf(image1, n, 1) == PlaneOf(image0, n, 1);
    GreyWorldChannel(image, n, 1);
    ghost var image2 := image[..];
    assert PlaneOf(image2, n, 2) == PlaneOf(image0, n, 2);
    GreyWorldChannel(image, n, 2);
    forall x | 0 <= x < n
      ensures PixelAt(image[..], n, x) == PixelAt(GreyWorld(image0, n), n, x)
    {
      GreyWorldAt(image0, n, x);
      assert image[x] == p0[x] by {
        assert image[x] == image2[x] == image1[x];
      }
      assert image[n + x] == p1[x];
      assert image[2 * n + x] == p2[x];
    }
    PixelsDetermineImage(image[..], GreyWorld(image0, n), n);
  }

  // ---------------------------------------------------------------------------------
  // Linearisation

  const LinA: real := 1.0 / 1.055
  const LinB: real := 0.055 / 1.055
  const LinC: real := 1.0 / 12.92
  const LinD: real := 0.04045
  const Lambda: real := 2.4

  /** linearizerHelper: the inverse sRGB gamma curve, mirrored for negative values. */
  function LinearizerHelper(u: real): (r: real)
    ensures u >= 0.0 ==> r >= 0.0
    ensures u <= 0.0 ==> r <= 0.0
    decreases if u < 0.0 then 1 else 0
  {
    if u < 0.0 then -1.0 * LinearizerHelper(Abs(u))
    else if u >= 0.0 && u < LinD then u * LinC
    else Pow(u * LinA + LinB, Lambda)
  }

  /** The curve is odd. */
  lemma LinearizerOdd(u: real)
    ensures LinearizerHelper(-u) == -LinearizerHelper(u)
  {
    if u > 0.0 {
      assert Abs(-u) == u;
    } else if u < 0.0 {
      assert Abs(u) == -u;
    }
  }

  /** Below the knee 0.04045 the curve is the straight segment u / 12.92. */
  lemma LinearizerLinearSegment(u: real)
    requires 0.0 <= u < 0.04045
    ensures LinearizerHelper(u) == u / 12.92
  {
  }

  /** linearizeRGB applied to a buffer. */
  function Linearized(s: seq<real>): (r: seq<real>)
    ensures |r| == |s|
  {
    seq(|s|, k requires 0 <= k < |s| => LinearizerHelper(s[k]))
  }

  /** Linearisation keeps the sign of every value, so a non-negative image can be binned
      after it. */
  lemma LinearizedNonNegative(image: seq<real>, n: nat)
    requires |image| == 3 * n
    requires forall k :: 0 <= k < |image| ==> image[k] >= 0.0
    ensures forall k :: 0 <= k < |image| ==> Linearized(image)[k] >= 0.0
    ensures PlanesBinnable(Linearized(image), n)
  {
    var lin := Linearized(image);
    NonNegativeBinnable(PlaneOf(lin, n, 0));
    NonNegativeBinnable(PlaneOf(lin, n, 1));
    NonNegativeBinnable(PlaneOf(lin, n, 2));
  }

  /** linearizeRGB: the 3n values of the image linearised in place. */
  method LinearizeRgb(image: array<real>, n: nat)
    requires 3 * n <= image.Length
    modifies image
    ensures image[..3 * n] == Linearized(old(image[..3 * n]))
    ensures image[3 * n..] == old(image[3 * n..])
  {
    ghost var image0 := image[..];
    var size := 3 * n;
    var i := 0;
    while i < size
      invariant 0 <= i <= size
      invariant forall k :: 0 <= k < i ==> image[k] == LinearizerHelper(image0[k])
      invariant forall k :: i <= k < image.Length ==> image[k] == image0[k]
    {
      image[i] := LinearizerHelper(image[i]);
      i := i + 1;
    }
    assert image[..3 * n] == Linearized(image0[..3 * n]);
    assert image[3 * n..] == image0[3 * n..];
  }

  // ---------------------------------------------------------------------------------
  // Full grey world

  /** The matrix applyGreyWorldFull applies to every XYZ pixel: the Bradford adaptation
      from the fixed illuminant to the D65 white. */
  function AdaptationMatrix(): (t: seq<real>)
    ensures |t| == 9
  {
    FixedIlluminantBecomesWhite(FixedIlluminant, TargetWhite);
    Transformation(FixedIlluminant, TargetWhite)
  }

  /** The new image applyGreyWorldFull returns for image: linearised, converted to XYZ,
      adapted pixel by pixel, and converted back to RGB. */
  function GreyWorldFull(image: seq<real>, n: nat): (out: seq<real>)
    requires |image| == 3 * n
    ensures |out| == 3 * n
  {
    MapPixels(TransformAll(MapPixels(Linearized(image), n, RgbToXyz), n, AdaptationMatrix()), n, XyzToRgb)
  }

  /** One pixel linearised channel by channel. */
  function LinearizedPixel(c: Pixel): (p: Pixel)
    ensures c.c0 >= 0.0 ==> p.c0 >= 0.0
    ensures c.c0 <= 0.0 ==> p.c0 <= 0.0
    ensures c.c1 >= 0.0 ==> p.c1 >= 0.0
    ensures c.c1 <= 0.0 ==> p.c1 <= 0.0
    ensures c.c2 >= 0.0 ==> p.c2 >= 0.0
    ensures c.c2 <= 0.0 ==> p.c2 <= 0.0
  {
    Pixel(LinearizerHelper(c.c0), LinearizerHelper(c.c1), LinearizerHelper(c.c2))
  }

  /** Each output pixel depends only on the same input pixel. */
  lemma GreyWorldFullAt(image: seq<real>, n: nat, x: nat)
    requires |image| == 3 * n && x < n
    ensures PixelAt(GreyWorldFull(image, n), n, x) ==
      XyzToRgb(Transform(AdaptationMatrix(), RgbToXyz(LinearizedPixel(PixelAt(image, n, x)))))
  {
    var lin := Linearized(image);
    assert PixelAt(lin, n, x) == LinearizedPixel(PixelAt(image, n, x));
    var xyz := MapPixels(lin, n, RgbToXyz);
    var adapted := TransformAll(xyz, n, AdaptationMatrix());
    assert PixelAt(adapted, n, x) == Transform(AdaptationMatrix(), PixelAt(xyz, n, x));
  }

  /** The adaptation takes the fixed illuminant to the D65 white, to within 1e-7 in every
      coordinate. */
  lemma AdaptationWhitens(c: Pixel)
    requires IsFixedIlluminant([c.c0, c.c1, c.c2])
    ensures Abs(Transform(AdaptationMatrix(), c).c0 - 0.95047) < 0.0000001
    ensures Abs(Transform(AdaptationMatrix(), c).c1 - 1.0) < 0.0000001
    ensures Abs(Transform(AdaptationMatrix(), c).c2 - 1.08883) < 0.0000001
  {
    var v := [c.c0, c.c1, c.c2];
    AdaptationMatrixOf(v);
    FixedIlluminantBecomesWhite(v, TargetWhite);
    var p := Product(AdaptationMatrix(), v, 3, 3, 1);
    assert Abs(p[0] - TargetWhite[0]) < 0.0000001;
    assert Abs(p[1] - TargetWhite[1]) < 0.0000001;
    assert Abs(p[2] - TargetWhite[2]) < 0.0000001;
  }

  /** The transformation matrix as applyGreyWorldFull builds it: the cone responses of the
      illuminant and of the white with multiplyFlatMatrix, the diagonal of their ratios,
      then bradford_inv * diag * bradford. */
  method BuildTransformation(illuminants: array<real>) returns (transformation: array<real>)
    requires illuminants.Length == 3 && NonZero3(ConeResponse(illuminants[..]))
    ensures fresh(transformation) && transformation[..] == Transformation(illuminants[..], TargetWhite)
  {
    var bradford := FilterArray(BradfordMatrix);
    var white := FilterArray(TargetWhite);
    var bradfordInv := FilterArray(BradfordInverse);
    var sourceCone := MultiplyFlatMatrix(bradford, illuminants, 3, 3, 3, 1);
    var targetCone := MultiplyFlatMatrix(bradford, white, 3, 3, 3, 1);
    var diag := BuildDiagonal(targetCone, sourceCone);
    var intermediate := MultiplyFlatMatrix(bradfordInv, diag, 3, 3, 3, 3);
    transformation := MultiplyFlatMatrix(intermediate, bradford, 3, 3, 3, 3);
  }

  /** A 3-vector with the fixed illuminant's entries is the fixed illuminant, and it
      yields the adaptation matrix. */
  lemma AdaptationMatrixOf(v: seq<real>)
    requires IsFixedIlluminant(v)
    ensures NonZero3(ConeResponse(v)) && Transformation(v, TargetWhite) == AdaptationMatrix()
  {
    FixedIlluminantCones(v);
    assert v == FixedIlluminant;
  }

  /** The illuminant buffer of applyGreyWorldFull: the estimate calcIlluminantRGB writes
      from the linearised image, overwritten by the fixed illuminant. */
  method FixedIlluminants(image: array<real>, n: nat, percentile: int) returns (illuminants: array<real>)
    requires PlanesBinnable(image[..], n)
    ensures fresh(illuminants) && IsFixedIlluminant(illuminants[..])
  {
    illuminants := new real[3];
    CalcIlluminantRgb(image, n, percentile, illuminants);
    illuminants[0] := 0.8017027977257660;
    illuminants[1] := 1.0;
    illuminants[2] := 0.642720796830038;
  }

  /** The illuminants, then the transformation built from them. */
  method FixedTransformation(image: array<real>, n: nat, percentile: int) returns (transformation: array<real>)
    requires PlanesBinnable(image[..], n)
    ensures fresh(transformation) && transformation[..] == AdaptationMatrix()
  {
    var illuminants := FixedIlluminants(image, n, percentile);
    AdaptationMatrixOf(illuminants[..]);
    transformation := BuildTransformation(illuminants);
  }

  /** applyGreyWorldFull: the image is linearised in place, and a fresh buffer holds the
      adapted image. The illuminants computed from the linearised image are replaced by
      fixed constants before they are used. */
  method ApplyGreyWorldFull(image: array<real>, n: nat, percentile: int) returns (output: array<real>)
    requires image.Length == 3 * n
    requires PlanesBinnable(Linearized(image[..]), n)
    modifies image
    ensures image[..] == Linearized(old(image[..]))
    ensures fresh(output) && output[..] == GreyWorldFull(old(image[..]), n)
  {
    LinearizeRgb(image, n);
    assert image[..] == Linearized(old(image[..])) by {
      assert image[..] == image[..3 * n];
      assert old(image[..]) == old(image[..3 * n]);
    }
    var xyzImage := Rgb2Xyz(image, n);
    var transformation := FixedTransformation(image, n, percentile);
    TransformPixels(xyzImage, n, transformation);
    output := Xyz2Rgb(xyzImage, n);
  }

  /** applyWhiteBalance: red and blue compensated in place against green, then the full
      grey world with percentile 20; the compensated image is also linearised in place. */
  method ApplyWhiteBalance(image: array<real>, numRow: nat, numCol: nat, alpha: real) returns (corrected: array<real>)
    requires numRow * numCol > 0 && image.Length == 3 * (numRow * numCol)
    requires PlanesBinnable(Linearized(Compensate(image[..], numRow * numCol, alpha)), numRow * numCol)
    modifies image
    ensures image[..] == Linearized(Compensate(old(image[..]), numRow * numCol, alpha))
    ensures fresh(corrected) && corrected[..] == GreyWorldFull(Compensate(old(image[..]), numRow * numCol, alpha), numRow * numCol)
  {
    var numPixels := numRow * numCol;
    CompensateChannels(image, numPixels, alpha);
    corrected := ApplyGreyWorldFull(image, numPixels, 20);
  }
}
