/** Integer histograms as the illuminant estimate and the histogram equalisation build
    them: a zeroed array of bins, one increment per sample, and running sums over bins. */
module Histogram {

  /** Sum of integers, accumulated from the left. */
  function SumInt(s: seq<int>): int
  {
    if |s| == 0 then 0 else SumInt(s[..|s| - 1]) + s[|s| - 1]
  }

  /** The histogram of a sequence of bin indices: bins zeroed, then one increment per
      sample, in order. */
  function CountBins(bins: seq<int>, nb: nat): (h: seq<int>)
    requires forall k :: 0 <= k < |bins| ==> 0 <= bins[k] < nb
    ensures |h| == nb
  {
    if |bins| == 0 then seq(nb, _ => 0)
    else
      var h := CountBins(bins[..|bins| - 1], nb);
      var b := bins[|bins| - 1];
      h[b := h[b] + 1]
  }

  lemma {:induction false} SumIntZeros(nb: nat)
    ensures SumInt(seq(nb, _ => 0)) == 0
  {
    if nb > 0 {
      assert seq(nb, _ => 0)[..nb - 1] == seq(nb - 1, _ => 0);
      SumIntZeros(nb - 1);
    }
  }

  /** Incrementing one entry increments the sum. */
  lemma {:induction false} SumIntIncrement(a: seq<int>, k: nat)
    requires k < |a|
    ensures SumInt(a[k := a[k] + 1]) == SumInt(a) + 1
  {
    var a' := a[k := a[k] + 1];
    if k < |a| - 1 {
      assert a'[..|a| - 1] == a[..|a| - 1][k := a[k] + 1];
      SumIntIncrement(a[..|a| - 1], k);
    } else {
      assert a'[..|a| - 1] == a[..|a| - 1];
    }
  }

  /** Every sample lands in exactly one bin: the bin counts add up to the number of
      samples. */
  lemma {:induction false} CountBinsTotal(bins: seq<int>, nb: nat)
    requires forall k :: 0 <= k < |bins| ==> 0 <= bins[k] < nb
    ensures SumInt(CountBins(bins, nb)) == |bins|
  {
    if |bins| == 0 {
      SumIntZeros(nb);
    } else {
      CountBinsTotal(bins[..|bins| - 1], nb);
      SumIntIncrement(CountBins(bins[..|bins| - 1], nb), bins[|bins| - 1]);
    }
  }

  /** Bin counts are never negative. */
  lemma {:induction false} CountBinsNonNegative(bins: seq<int>, nb: nat)
    requires forall k :: 0 <= k < |bins| ==> 0 <= bins[k] < nb
    ensures forall b :: 0 <= b < nb ==> CountBins(bins, nb)[b] >= 0
  {
    if |bins| > 0 {
      CountBinsNonNegative(bins[..|bins| - 1], nb);
    }
  }

  /** When every sample falls in bin b, bin b counts them all and every other bin is
      empty. */
  lemma {:induction false} CountBinsConstant(bins: seq<int>, nb: nat, b: nat)
    requires b < nb
    requires forall k :: 0 <= k < |bins| ==> bins[k] == b
    ensures CountBins(bins, nb)[b] == |bins|
    ensures forall c :: 0 <= c < nb && c != b ==> CountBins(bins, nb)[c] == 0
  {
    if |bins| > 0 {
      CountBinsConstant(bins[..|bins| - 1], nb, b);
    }
  }

  /** Running sums over non-negative entries never decrease. */
  lemma {:induction false} PrefixSumMonotone(h: seq<int>, i: nat, j: nat)
    requires i <= j <= |h|
    requires forall b :: 0 <= b < |h| ==> h[b] >= 0
    ensures SumInt(h[..i]) <= SumInt(h[..j])
  {
    if i < j {
      PrefixSumMonotone(h, i, j - 1);
      assert h[..j][..j - 1] == h[..j - 1];
    }
  }

  /** The full sum is the running sum over every entry. */
  lemma FullPrefix(h: seq<int>)
    ensures SumInt(h[..|h|]) == SumInt(h)
  {
    assert h[..|h|] == h;
  }

  /** The sum of a sequence is its first entry plus the sum of the rest. */
  lemma {:induction false} SumIntPrepend(x: int, s: seq<int>)
    ensures SumInt([x] + s) == x + SumInt(s)
  {
    if |s| > 0 {
      assert ([x] + s)[..|s|] == [x] + s[..|s| - 1];
      SumIntPrepend(x, s[..|s| - 1]);
    }
  }

  /** The sum of a concatenation is the sum of the sums. */
  lemma {:induction false} SumIntConcat(a: seq<int>, b: seq<int>)
    ensures SumInt(a + b) == SumInt(a) + SumInt(b)
  {
    if |b| > 0 {
      assert (a + b)[..|a + b| - 1] == a + b[..|b| - 1];
      SumIntConcat(a, b[..|b| - 1]);
    } else {
      assert a + b == a;
    }
  }

  /** For a histogram empty outside bin b, a running sum from the bottom is 0 until it
      reaches b and the count of b from there on. */
  lemma {:induction false} SingleBinPrefix(h: seq<int>, b: nat, i: nat)
    requires b < |h| && i <= |h|
    requires forall c :: 0 <= c < |h| && c != b ==> h[c] == 0
    ensures SumInt(h[..i]) == if i > b then h[b] else 0
  {
    if i > 0 {
      assert h[..i][..i - 1] == h[..i - 1];
      SingleBinPrefix(h, b, i - 1);
    }
  }

  /** For a histogram empty outside bins b1 < b2, a running sum from the bottom adds
      each of the two counts once it has passed that bin. */
  lemma {:induction false} TwoBinPrefix(h: seq<int>, b1: nat, b2: nat, i: nat)
    requires b1 < b2 < |h| && i <= |h|
    requires forall c :: 0 <= c < |h| && c != b1 && c != b2 ==> h[c] == 0
    ensures SumInt(h[..i]) == (if i > b1 then h[b1] else 0) + (if i > b2 then h[b2] else 0)
  {
    if i > 0 {
      assert h[..i][..i - 1] == h[..i - 1];
      TwoBinPrefix(h, b1, b2, i - 1);
    }
  }

  /** The same from the top: a running sum from the top adds each of the two counts once
      it has reached that bin. */
  lemma TwoBinSuffix(h: seq<int>, b1: nat, b2: nat, j: nat)
    requires b1 < b2 < |h| && j <= |h|
    requires forall c :: 0 <= c < |h| && c != b1 && c != b2 ==> h[c] == 0
    ensures SumInt(h[j..]) == (if j <= b1 then h[b1] else 0) + (if j <= b2 then h[b2] else 0)
  {
    assert h == h[..j] + h[j..];
    SumIntConcat(h[..j], h[j..]);
    TwoBinPrefix(h, b1, b2, j);
    TwoBinPrefix(h, b1, b2, |h|);
    assert h[..|h|] == h;
  }

  /** For a histogram empty outside bin b, a running sum from the top is 0 until it
      reaches b and the count of b from there on. */
  lemma SingleBinSuffix(h: seq<int>, b: nat, j: nat)
    requires b < |h| && j <= |h|
    requires forall c :: 0 <= c < |h| && c != b ==> h[c] == 0
    ensures SumInt(h[j..]) == if j <= b then h[b] else 0
  {
    assert h == h[..j] + h[j..];
    SumIntConcat(h[..j], h[j..]);
    SingleBinPrefix(h, b, j);
    SingleBinPrefix(h, b, |h|);
    assert h[..|h|] == h;
  }
}
