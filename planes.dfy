/** Three-channel images as the pipeline stores them: three planes of n values each, one
    after the other ([R1 R2 ... G1 G2 ... B1 B2 ...], and likewise for HSI, XYZ and LAB). */
module Planes {

  /** The three channel values of one pixel, in plane order. */
  datatype Pixel = Pixel(c0: real, c1: real, c2: real)

  /** Pixel x of an image of n pixels. */
  function PixelAt(image: seq<real>, n: nat, x: nat): Pixel
    requires x < n && 3 * n <= |image|
  {
    Pixel(image[x], image[n + x], image[2 * n + x])
  }

  /** The image of n pixels obtained by applying f to every pixel of image. */
  function MapPixels(image: seq<real>, n: nat, f: Pixel -> Pixel): (out: seq<real>)
    requires 3 * n <= |image|
    ensures |out| == 3 * n
    ensures forall x :: 0 <= x < n ==> PixelAt(out, n, x) == f(PixelAt(image, n, x))
  {
    seq(n, x requires 0 <= x < n => f(PixelAt(image, n, x)).c0) +
    seq(n, x requires 0 <= x < n => f(PixelAt(image, n, x)).c1) +
    seq(n, x requires 0 <= x < n => f(PixelAt(image, n, x)).c2)
  }

  /** The plane of n values obtained by applying f to every pixel of image. */
  function MapToPlane(image: seq<real>, n: nat, f: Pixel -> real): (out: seq<real>)
    requires 3 * n <= |image|
    ensures |out| == n
    ensures forall x :: 0 <= x < n ==> out[x] == f(PixelAt(image, n, x))
  {
    seq(n, x requires 0 <= x < n => f(PixelAt(image, n, x)))
  }

  /** An image of 3n values is determined by its n pixels. */
  lemma PixelsDetermineImage(a: seq<real>, b: seq<real>, n: nat)
    requires |a| == 3 * n && |b| == 3 * n
    requires forall x :: 0 <= x < n ==> PixelAt(a, n, x) == PixelAt(b, n, x)
    ensures a == b
  {
    forall k | 0 <= k < 3 * n
      ensures a[k] == b[k]
    {
      if k < n {
        assert PixelAt(a, n, k) == PixelAt(b, n, k);
      } else if k < 2 * n {
        assert PixelAt(a, n, k - n) == PixelAt(b, n, k - n);
      } else {
        assert PixelAt(a, n, k - 2 * n) == PixelAt(b, n, k - 2 * n);
      }
    }
  }

  /** Two per-pixel maps applied one after the other are the composed per-pixel map. */
  lemma MapPixelsCompose(image: seq<real>, n: nat, f: Pixel -> Pixel, g: Pixel -> Pixel, h: Pixel -> Pixel)
    requires 3 * n <= |image|
    requires forall c :: h(c) == g(f(c))
    ensures MapPixels(MapPixels(image, n, f), n, g) == MapPixels(image, n, h)
  {
    var once := MapPixels(image, n, f);
    forall x | 0 <= x < n
      ensures PixelAt(MapPixels(once, n, g), n, x) == PixelAt(MapPixels(image, n, h), n, x)
    {
      assert PixelAt(once, n, x) == f(PixelAt(image, n, x));
    }
    PixelsDetermineImage(MapPixels(once, n, g), MapPixels(image, n, h), n);
  }

  /** A loop over the n pixels of a three-plane image that writes f of each pixel into a
      fresh three-plane buffer, as the colour space conversions do. */
  method MapImage(image: array<real>, n: nat, f: Pixel -> Pixel) returns (out: array<real>)
    requires 3 * n <= image.Length
    ensures fresh(out) && out[..] == MapPixels(image[..], n, f)
  {
    out := new real[3 * n];
    var i := 0;
    while i < n
      invariant 0 <= i <= n
      invariant forall x :: 0 <= x < i ==> PixelAt(out[..], n, x) == f(PixelAt(image[..], n, x))
    {
      ghost var before := out[..];
      var c := f(Pixel(image[i], image[n + i], image[2 * n + i]));
      out[i] := c.c0;
      out[n + i] := c.c1;
      out[2 * n + i] := c.c2;
      forall x | 0 <= x < i
        ensures PixelAt(out[..], n, x) == PixelAt(before, n, x)
      {
      }
      assert PixelAt(out[..], n, i) == c;
      assert PixelAt(image[..], n, i) == Pixel(image[i], image[n + i], image[2 * n + i]);
      i := i + 1;
    }
    PixelsDetermineImage(out[..], MapPixels(image[..], n, f), n);
  }
}
