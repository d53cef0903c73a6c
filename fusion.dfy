/** Image fusion (imfusion.c): the two combined weight maps are regularised against each
    other in place, and the white balanced image is multiplied, pixel by pixel, by the sum
    of the two regularised weights. */
module Fusion {
  import opened CMath

  /** REGULARIZATION. */
  const Regularization: real := 0.1

  /** Both divisions of one iteration are defined: the sharp weight's denominator uses the
      gamma weight just written. */
  predicate Normalizable(g: real, s: real)
  {
    s + g + 2.0 * Regularization != 0.0
    && s + (g + Regularization) / (s + g + 2.0 * Regularization) + 2.0 * Regularization != 0.0
  }

  /** The new gamma weight of a pixel, from the old gamma and sharp weights. */
  function NewGamma(g: real, s: real): (r: real)
    requires Normalizable(g, s)
    ensures g >= 0.0 && s >= 0.0 ==> 0.0 < r < 1.0
  {
    var q := (g + Regularization) / (s + g + 2.0 * Regularization);
    assert g >= 0.0 && s >= 0.0 ==> 0.0 < q < 1.0 by {
      if g >= 0.0 && s >= 0.0 {
        QuotientInUnit(g + Regularization, s + g + 2.0 * Regularization);
      }
    }
    q
  }

  /** The new sharp weight of a pixel: its denominator adds the NEW gamma weight. */
  function NewSharp(g: real, s: real): (r: real)
    requires Normalizable(g, s)
    ensures g >= 0.0 && s >= 0.0 ==> 0.0 < r < 1.0
  {
    var q := (s + Regularization) / (s + NewGamma(g, s) + 2.0 * Regularization);
    assert g >= 0.0 && s >= 0.0 ==> 0.0 < q < 1.0 by {
      if g >= 0.0 && s >= 0.0 {
        QuotientInUnit(s + Regularization, s + NewGamma(g, s) + 2.0 * Regularization);
      }
    }
    q
  }

  /** For non-negative weights both divisions are defined and both new weights lie strictly
      between 0 and 1. */
  lemma NewWeightsInUnit(g: real, s: real)
    requires g >= 0.0 && s >= 0.0
    ensures Normalizable(g, s)
    ensures 0.0 < NewGamma(g, s) < 1.0
    ensures 0.0 < NewSharp(g, s) < 1.0
  {
    QuotientInUnit(g + Regularization, s + g + 2.0 * Regularization);
    QuotientInUnit(s + Regularization, s + NewGamma(g, s) + 2.0 * Regularization);
  }

  /** 0 < a < b gives 0 < a / b < 1. */
  lemma QuotientInUnit(a: real, b: real)
    requires 0.0 < a < b
    ensures 0.0 < a / b < 1.0
  {
    var q := a / b;
    assert q * b == a;
    if q >= 1.0 {
      assert false;
    }
  }

  /** The two new weights need not sum to 1: for two zero weights they sum to 9/14, because
      the sharp weight is divided by a sum that holds the new gamma weight. */
  lemma NewWeightsSumForZeros()
    ensures NewGamma(0.0, 0.0) == 0.5
    ensures NewSharp(0.0, 0.0) == 1.0 / 7.0
    ensures NewGamma(0.0, 0.0) + NewSharp(0.0, 0.0) == 9.0 / 14.0
  {
    assert NewGamma(0.0, 0.0) == 0.1 / 0.2;
  }

  /** normalizeFusionWeights: iteration i overwrites gamma[i] and then sharp[i], reading
      only index i of both arrays. */
  method NormalizeFusionWeights(gamma: array<real>, sharp: array<real>, numRow: nat, numCol: nat)
    requires gamma != sharp && numRow * numCol <= gamma.Length && numRow * numCol <= sharp.Length
    requires forall i :: 0 <= i < numRow * numCol ==> Normalizable(gamma[i], sharp[i])
    modifies gamma, sharp
    ensures forall i :: 0 <= i < numRow * numCol ==> gamma[i] == NewGamma(old(gamma[i]), old(sharp[i]))
    ensures forall i :: 0 <= i < numRow * numCol ==> sharp[i] == NewSharp(old(gamma[i]), old(sharp[i]))
    ensures forall i :: numRow * numCol <= i < gamma.Length ==> gamma[i] == old(gamma[i])
    ensures forall i :: numRow * numCol <= i < sharp.Length ==> sharp[i] == old(sharp[i])
  {
    var numPixel := numRow * numCol;
    var i := 0;
    while i < numPixel
      invariant 0 <= i <= numPixel
      invariant forall j :: 0 <= j < i ==> gamma[j] == NewGamma(old(gamma[j]), old(sharp[j]))
      invariant forall j :: 0 <= j < i ==> sharp[j] == NewSharp(old(gamma[j]), old(sharp[j]))
      invariant forall j :: i <= j < gamma.Length ==> gamma[j] == old(gamma[j])
      invariant forall j :: i <= j < sharp.Length ==> sharp[j] == old(sharp[j])
    {
      gamma[i] := (gamma[i] + Regularization) / (sharp[i] + gamma[i] + 2.0 * Regularization);
      sharp[i] := (sharp[i] + Regularization) / (sharp[i] + gamma[i] + 2.0 * Regularization);
      i := i + 1;
    }
  }

  /** The fused image: every one of the 3n values weighted by the sum of its pixel's two
      weights. */
  function Fused(white: seq<real>, g: seq<real>, s: seq<real>, n: nat): (r: seq<real>)
    requires 3 * n <= |white| && n <= |g| && n <= |s|
    ensures |r| == 3 * n
  {
    seq(3 * n, i requires 0 <= i < 3 * n => FusedValue(white, g, s, n, i))
  }

  /** Value i of the fused image: value i of the image times the weight sum of pixel
      i % n. */
  function FusedValue(white: seq<real>, g: seq<real>, s: seq<real>, n: nat, i: nat): (v: real)
    requires 3 * n <= |white| && n <= |g| && n <= |s| && i < 3 * n
    ensures g[i % n] + s[i % n] == 1.0 ==> v == white[i]
    ensures g[i % n] + s[i % n] == 0.0 ==> v == 0.0
    ensures white[i] >= 0.0 && g[i % n] >= 0.0 && s[i % n] >= 0.0 ==> v >= 0.0
  {
    white[i] * (g[i % n] + s[i % n])
  }

  /** The three channel values of pixel p share one weight, g[p] + s[p]. */
  lemma FusedChannelsShareWeight(white: seq<real>, g: seq<real>, s: seq<real>, n: nat, p: nat)
    requires 3 * n <= |white| && n <= |g| && n <= |s| && p < n
    ensures Fused(white, g, s, n)[p] == white[p] * (g[p] + s[p])
    ensures Fused(white, g, s, n)[n + p] == white[n + p] * (g[p] + s[p])
    ensures Fused(white, g, s, n)[2 * n + p] == white[2 * n + p] * (g[p] + s[p])
  {
    RowMajorDivMod(0, p, n);
    RowMajorDivMod(1, p, n);
    RowMajorDivMod(2, p, n);
  }

  /** With non-negative weights regularised and a white balanced image in [0, 1], every
      fused value lies in [0, 2). */
  lemma FusedBounds(white: seq<real>, g: seq<real>, s: seq<real>, n: nat, i: nat)
    requires 3 * n <= |white| && n <= |g| && n <= |s| && i < 3 * n
    requires 0.0 <= white[i] <= 1.0
    requires forall p :: 0 <= p < n ==> 0.0 < g[p] < 1.0 && 0.0 < s[p] < 1.0
    ensures 0.0 <= Fused(white, g, s, n)[i] < 2.0
  {
    var w := g[i % n] + s[i % n];
    assert 0.0 < w < 2.0;
    assert Fused(white, g, s, n)[i] == white[i] * w;
    FractionOf(white[i], w);
  }

  /** A fraction in [0, 1] of a positive w lies in [0, w]. */
  lemma FractionOf(x: real, w: real)
    requires 0.0 <= x <= 1.0 && 0.0 < w
    ensures 0.0 <= x * w <= w
  {
    assert w - x * w == (1.0 - x) * w;
  }

  /** applyFusion: the weights are regularised in place, then a fresh buffer receives the
      fused image; the white balanced image is only read. */
  method ApplyFusion(white: array<real>, gamma: array<real>, sharp: array<real>, numRow: nat, numCol: nat)
    returns (reconstructed: array<real>)
    requires 3 * (numRow * numCol) <= white.Length
    requires gamma != sharp && numRow * numCol <= gamma.Length && numRow * numCol <= sharp.Length
    requires white != gamma && white != sharp
    requires forall i :: 0 <= i < numRow * numCol ==> Normalizable(gamma[i], sharp[i])
    modifies gamma, sharp
    ensures forall i :: 0 <= i < numRow * numCol ==> gamma[i] == NewGamma(old(gamma[i]), old(sharp[i]))
    ensures forall i :: 0 <= i < numRow * numCol ==> sharp[i] == NewSharp(old(gamma[i]), old(sharp[i]))
    ensures forall i :: numRow * numCol <= i < gamma.Length ==> gamma[i] == old(gamma[i])
    ensures forall i :: numRow * numCol <= i < sharp.Length ==> sharp[i] == old(sharp[i])
    ensures white[..] == old(white[..])
    ensures fresh(reconstructed) && reconstructed[..] == Fused(white[..], gamma[..], sharp[..], numRow * numCol)
  {
    NormalizeFusionWeights(gamma, sharp, numRow, numCol);
    reconstructed := Fuse(white, gamma, sharp, numRow * numCol);
  }

  /** The loop of applyFusion: value i of the image times the weight sum of pixel i % n,
      into a fresh buffer. */
  method Fuse(white: array<real>, gamma: array<real>, sharp: array<real>, numPixel: nat)
    returns (reconstructed: array<real>)
    requires 3 * numPixel <= white.Length && numPixel <= gamma.Length && numPixel <= sharp.Length
    ensures fresh(reconstructed) && reconstructed[..] == Fused(white[..], gamma[..], sharp[..], numPixel)
  {
    var numRgb := numPixel * 3;
    reconstructed := new real[numRgb];
    var i := 0;
    while i < numRgb
      invariant 0 <= i <= numRgb
      invariant forall j :: 0 <= j < i ==> reconstructed[j] == FusedValue(white[..], gamma[..], sharp[..], numPixel, j)
    {
      reconstructed[i] := white[i] * (gamma[i % numPixel] + sharp[i % numPixel]);
      i := i + 1;
    }
    assert numRgb == 3 * numPixel;
  }
}
