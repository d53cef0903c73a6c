/** The illuminant estimate of whitebalance.c: one colour plane binned into a histogram
    of 1024 bins, the percentile indexes found from running counts taken from the bottom
    and from the top, and the mean absolute value of the pixels inside the window those
    indexes give. */
module Illuminant {
  import opened CMath
  import opened Histogram

  /** NUM_BINS: the number of histogram bins, 2^10. */
  const NumBins: nat := 1024

  /** The width of one bin, `1.0 / NUM_BINS`. */
  const Step: real := 1.0 / 1024.0

  /** The tolerance of the window, `1e-3`. */
  const Eps: real := 0.001

  /** The factor the source puts in front of each index when it builds the window:
      one and a half bin widths. */
  const WidthAsWritten: real := 3.0 / 2.0 * Step

  /** The bin a value is counted under: C's `(int)(v / step) % NUM_BINS`. */
  function Bin(v: real): (b: int)
    ensures b < NumBins
  {
    CMod(Trunc(v / Step), NumBins)
  }

  /** A value in [0, 1) lands in the bin whose interval holds it. */
  lemma BinOfUnitValue(v: real)
    requires 0.0 <= v < 1.0
    ensures 0 <= Bin(v) < NumBins
    ensures (Bin(v) as real) * Step <= v < (Bin(v) as real + 1.0) * Step
  {
    assert v / Step == v * 1024.0;
  }

  /** The value 1.0 wraps around into bin 0. */
  lemma BinOfOne()
    ensures Bin(1.0) == 0
  {
    assert 1.0 / Step == 1024.0;
  }

  /** Every value's bin indexes the histogram. A negative bin would index before the
      start of the C array. */
  predicate Binnable(s: seq<real>)
  {
    forall k :: 0 <= k < |s| ==> Bin(s[k]) >= 0
  }

  function Bins(s: seq<real>): (bins: seq<int>)
    requires Binnable(s)
    ensures |bins| == |s| && forall k :: 0 <= k < |s| ==> 0 <= bins[k] < NumBins
  {
    seq(|s|, k requires 0 <= k < |s| => Bin(s[k]))
  }

  /** The histogram of a plane. */
  function HistogramOf(s: seq<real>): (h: seq<int>)
    requires Binnable(s)
    ensures |h| == NumBins
  {
    CountBins(Bins(s), NumBins)
  }

  /** Every value is counted once: the bin counts add up to the number of values. */
  lemma HistogramTotal(s: seq<real>)
    requires Binnable(s)
    ensures SumInt(HistogramOf(s)) == |s|
    ensures forall b :: 0 <= b < NumBins ==> HistogramOf(s)[b] >= 0
  {
    CountBinsTotal(Bins(s), NumBins);
    CountBinsNonNegative(Bins(s), NumBins);
  }

  /** The forward running counts, cum_sum_forward: bins 0 up to i. */
  function ForwardSums(h: seq<int>): (c: seq<int>)
    requires |h| == NumBins
    ensures |c| == NumBins
  {
    seq(NumBins, i requires 0 <= i < NumBins => SumInt(h[..i + 1]))
  }

  /** The backward running counts: bins NUM_BINS - 1 down to NUM_BINS - 1 - i. */
  function BackwardSums(h: seq<int>): (c: seq<int>)
    requires |h| == NumBins
    ensures |c| == NumBins
  {
    seq(NumBins, i requires 0 <= i < NumBins => SumInt(h[NumBins - 1 - i..]))
  }

  /** Each running count adds one bin to the one before it. */
  lemma RunningSumsStep(h: seq<int>, i: nat)
    requires |h| == NumBins && i < NumBins
    ensures ForwardSums(h)[i] == (if i == 0 then 0 else ForwardSums(h)[i - 1]) + h[i]
    ensures BackwardSums(h)[i] == (if i == 0 then 0 else BackwardSums(h)[i - 1]) + h[NumBins - 1 - i]
  {
    assert h[..i + 1][..i] == h[..i];
    assert h[NumBins - 1 - i..] == [h[NumBins - 1 - i]] + h[NumBins - i..];
    SumIntPrepend(h[NumBins - 1 - i], h[NumBins - i..]);
    if i == 0 {
      assert h[NumBins - i..] == [];
    }
  }

  /** The first index whose running count exceeds the threshold, or -1: the flag the
      scan over the running counts sets once and then keeps. */
  function FirstAbove(c: seq<int>, t: real): (r: int)
    ensures -1 <= r < |c|
    ensures r == -1 <==> forall j :: 0 <= j < |c| ==> c[j] as real <= t
    ensures r >= 0 ==> c[r] as real > t && forall j :: 0 <= j < r ==> c[j] as real <= t
  {
    if |c| == 0 then -1
    else
      var r := FirstAbove(c[..|c| - 1], t);
      if r != -1 then r
      else if c[|c| - 1] as real > t then |c| - 1
      else -1
  }

  /** Scanning one more running count: the flag keeps its index once set, and is set to
      the new index when that count is the first to exceed the threshold. */
  lemma FirstAboveExtend(c: seq<int>, t: real, i: nat)
    requires i < |c|
    ensures FirstAbove(c[..i + 1], t) == (var r := FirstAbove(c[..i], t); if r != -1 then r else if c[i] as real > t then i else -1)
  {
    assert c[..i + 1][..i] == c[..i];
  }

  /** Running counts that are 0 before index m and n > t >= 0 from m on first exceed t at
      m. */
  lemma FirstAboveStep(c: seq<int>, t: real, m: nat, n: nat)
    requires m < |c| && 0.0 <= t < n as real
    requires forall j :: 0 <= j < |c| ==> c[j] == if j >= m then n else 0
    ensures FirstAbove(c, t) == m
  {
    assert c[m] as real > t;
  }

  /** idx_low: the first bin whose forward running count exceeds the low threshold, or
      -1 when none does. */
  function IdxLow(h: seq<int>, low: real): (idx: int)
    requires |h| == NumBins
    ensures -1 <= idx < NumBins
    ensures idx >= 0 ==> ForwardSums(h)[idx] as real > low
    ensures idx >= 1 ==> ForwardSums(h)[idx - 1] as real <= low
  {
    FirstAbove(ForwardSums(h), low)
  }

  /** idx_high with each bin counted once: the bin at which the running count taken
      from the top first exceeds the threshold t, or -1 when it never does. */
  function IdxHigh(h: seq<int>, t: real): (idx: int)
    requires |h| == NumBins
    ensures -1 <= idx < NumBins
    ensures idx >= 0 ==> BackwardSums(h)[NumBins - 1 - idx] as real > t
    ensures 0 <= idx < NumBins - 1 ==> BackwardSums(h)[NumBins - 2 - idx] as real <= t
  {
    FromTop(FirstAbove(BackwardSums(h), t))
  }

  /** A running count that exceeds t at m and at no index before m is first above t at m. */
  lemma FirstAboveAt(c: seq<int>, t: real, m: nat)
    requires m < |c| && c[m] as real > t
    requires forall j :: 0 <= j < m ==> c[j] as real <= t
    ensures FirstAbove(c, t) == m
  {
  }

  /** The bin reached after i steps down from the top bin, keeping the flag -1. */
  function FromTop(i: int): int
  {
    if i == -1 then -1 else NumBins - 1 - i
  }

  /** low_threshold: num_pixels * percentile / 100, the product taken in integers. */
  function LowThreshold(n: nat, percentile: int): real
  {
    ((n * percentile) as real) / 100.0
  }

  /** high_threshold: num_pixels * (100 - percentile) / 100. */
  function HighThreshold(n: nat, percentile: int): real
  {
    (n as real) * (100.0 - percentile as real) / 100.0
  }

  /** With every one of the pixels counted and the low threshold below their number,
      some bin reaches the low threshold, so idx_low is found. */
  lemma IdxLowFound(s: seq<real>, low: real)
    requires Binnable(s) && low < |s| as real
    ensures 0 <= IdxLow(HistogramOf(s), low) < NumBins
  {
    var h := HistogramOf(s);
    CountBinsTotal(Bins(s), NumBins);
    assert h[..NumBins] == h;
    assert ForwardSums(h)[NumBins - 1] == |s|;
  }

  /** The same holds for idx_high. */
  lemma IdxHighFound(s: seq<real>, high: real)
    requires Binnable(s) && high < |s| as real
    ensures 0 <= IdxHigh(HistogramOf(s), high) < NumBins
  {
    var h := HistogramOf(s);
    CountBinsTotal(Bins(s), NumBins);
    assert h[0..] == h;
    assert BackwardSums(h)[NumBins - 1] == |s|;
  }

  /** The window test of the selection loop, with the given width per index. */
  predicate InWindow(v: real, idxLow: int, idxHigh: int, width: real)
  {
    v <= width * (idxHigh as real) + Eps && v >= width * (idxLow as real) - Eps
  }

  /** The number of values inside the window. */
  function SelectedCount(s: seq<real>, idxLow: int, idxHigh: int, width: real): (c: nat)
    ensures c <= |s|
  {
    if |s| == 0 then 0
    else SelectedCount(s[..|s| - 1], idxLow, idxHigh, width) + (if InWindow(s[|s| - 1], idxLow, idxHigh, width) then 1 else 0)
  }

  /** The sum of the absolute values inside the window. */
  function SelectedSum(s: seq<real>, idxLow: int, idxHigh: int, width: real): (t: real)
    ensures t >= 0.0
  {
    if |s| == 0 then 0.0
    else SelectedSum(s[..|s| - 1], idxLow, idxHigh, width) + (if InWindow(s[|s| - 1], idxLow, idxHigh, width) then Abs(s[|s| - 1]) else 0.0)
  }

  /** Every value is selected exactly when the count is the number of values; none is
      selected exactly when the count is 0. */
  lemma {:induction false} SelectedCountExtremes(s: seq<real>, idxLow: int, idxHigh: int, width: real)
    ensures SelectedCount(s, idxLow, idxHigh, width) == |s| <==> forall k :: 0 <= k < |s| ==> InWindow(s[k], idxLow, idxHigh, width)
    ensures SelectedCount(s, idxLow, idxHigh, width) == 0 <==> forall k :: 0 <= k < |s| ==> !InWindow(s[k], idxLow, idxHigh, width)
  {
    if |s| > 0 {
      var p := s[..|s| - 1];
      assert forall k :: 0 <= k < |p| ==> p[k] == s[k];
      SelectedCountExtremes(p, idxLow, idxHigh, width);
    }
  }

  /** n copies of x added up. */
  function Times(n: nat, x: real): real
  {
    if n == 0 then 0.0 else Times(n - 1, x) + x
  }

  lemma {:induction false} TimesIsProduct(n: nat, x: real)
    ensures Times(n, x) == (n as real) * x
  {
    if n > 0 {
      TimesIsProduct(n - 1, x);
      assert (n as real) * x == ((n - 1) as real) * x + x;
    }
  }

  /** When every selected absolute value lies in [a, b], their sum lies between count
      copies of a and count copies of b. */
  lemma {:induction false} SelectedSumBounds(s: seq<real>, idxLow: int, idxHigh: int, width: real, a: real, b: real)
    requires forall k :: 0 <= k < |s| && InWindow(s[k], idxLow, idxHigh, width) ==> a <= Abs(s[k]) <= b
    ensures Times(SelectedCount(s, idxLow, idxHigh, width), a) <= SelectedSum(s, idxLow, idxHigh, width)
    ensures SelectedSum(s, idxLow, idxHigh, width) <= Times(SelectedCount(s, idxLow, idxHigh, width), b)
  {
    if |s| > 0 {
      var p := s[..|s| - 1];
      assert forall k :: 0 <= k < |p| ==> p[k] == s[k];
      SelectedSumBounds(p, idxLow, idxHigh, width, a, b);
    }
  }

  /** The mean absolute value over the window, or 0 when the window is empty. */
  function WindowMean(s: seq<real>, idxLow: int, idxHigh: int, width: real): (m: real)
    ensures m >= 0.0
    ensures SelectedCount(s, idxLow, idxHigh, width) == 0 ==> m == 0.0
  {
    var count := SelectedCount(s, idxLow, idxHigh, width);
    if count == 0 then 0.0 else SelectedSum(s, idxLow, idxHigh, width) / (count as real)
  }

  /** From c * a <= t <= c * b with c > 0 follows a <= t / c <= b. */
  lemma QuotientBetween(t: real, c: real, a: real, b: real)
    requires c > 0.0 && c * a <= t <= c * b
    ensures a <= t / c <= b
  {
    assert t / c * c == t;
  }

  /** The mean over the window lies between the smallest and the largest selected
      absolute value. */
  lemma WindowMeanBetween(s: seq<real>, idxLow: int, idxHigh: int, width: real, a: real, b: real)
    requires forall k :: 0 <= k < |s| && InWindow(s[k], idxLow, idxHigh, width) ==> a <= Abs(s[k]) <= b
    requires SelectedCount(s, idxLow, idxHigh, width) > 0
    ensures a <= WindowMean(s, idxLow, idxHigh, width) <= b
  {
    SelectedSumBounds(s, idxLow, idxHigh, width, a, b);
    MeanBetween(SelectedCount(s, idxLow, idxHigh, width), SelectedSum(s, idxLow, idxHigh, width), a, b);
  }

  /** A total between n copies of a and n copies of b gives a mean between a and b. */
  lemma MeanBetween(n: nat, t: real, a: real, b: real)
    requires n > 0 && Times(n, a) <= t <= Times(n, b)
    ensures a <= t / (n as real) <= b
  {
    TimesIsProduct(n, a);
    TimesIsProduct(n, b);
    QuotientBetween(t, n as real, a, b);
  }

  /** The illuminant of one plane: the mean absolute value over the window between the
      percentile-th and the (100 - percentile)-th percentile bins, each index scaled by
      one bin width. Both bins are found with the low threshold, one counting from the
      bottom and one from the top (see PercentileWindow). Whatever the plane, it lies in
      [0, 1023 / 1024 + eps]: no selected value lies above the top bin's window. */
  function IlluminantOf(s: seq<real>, percentile: int): (illuminant: real)
    requires Binnable(s)
    ensures 0.0 <= illuminant <= Step * 1023.0 + Eps
  {
    var h := HistogramOf(s);
    var t := LowThreshold(|s|, percentile);
    var lo, hi := IdxLow(h, t), IdxHigh(h, t);
    WindowMeanBound(s, lo, hi, Step);
    WindowMean(s, lo, hi, Step)
  }

  /** With indexes in [-1, NUM_BINS - 1] and a positive width, every selected value lies
      within width * (NUM_BINS - 1) + eps of 0, and so does the mean. */
  lemma WindowMeanBound(s: seq<real>, idxLow: int, idxHigh: int, width: real)
    requires -1 <= idxLow && idxHigh < NumBins && width > 0.0
    ensures WindowMean(s, idxLow, idxHigh, width) <= width * 1023.0 + Eps
  {
    var b := width * 1023.0 + Eps;
    forall k | 0 <= k < |s| && InWindow(s[k], idxLow, idxHigh, width)
      ensures 0.0 <= Abs(s[k]) <= b
    {
      assert width * (idxHigh as real) <= width * 1023.0;
      assert width * (idxLow as real) >= -width;
    }
    if SelectedCount(s, idxLow, idxHigh, width) > 0 {
      WindowMeanBetween(s, idxLow, idxHigh, width, 0.0, b);
    }
  }

  /** The window of the corrected estimate is a percentile range. For a histogram of n
      pixels and a threshold t with 2 t < n, both bins are found and idx_low <= idx_high.
      At most t pixels lie in the bins below idx_low and at most t in the bins above
      idx_high, so at least n - 2 t lie in the bins from idx_low to idx_high. */
  lemma PercentileWindow(h: seq<int>, t: real)
    requires |h| == NumBins && forall b :: 0 <= b < NumBins ==> h[b] >= 0
    requires 0.0 <= t && 2.0 * t < SumInt(h) as real
    ensures var lo, hi := IdxLow(h, t), IdxHigh(h, t);
      0 <= lo <= hi < NumBins &&
      SumInt(h[..lo]) as real <= t && SumInt(h[hi + 1..]) as real <= t &&
      SumInt(h[lo..hi + 1]) as real >= SumInt(h) as real - 2.0 * t
  {
    var lo, hi := IdxLow(h, t), IdxHigh(h, t);
    WindowTails(h, t);
    assert 0 <= lo < NumBins && 0 <= hi < NumBins;
    assert SumInt(h[..lo]) as real <= t && SumInt(h[hi + 1..]) as real <= t;
    WindowBetweenTails(h, lo, hi, t);
  }

  /** Bins lo and hi with at most t pixels below lo and at most t above hi, out of more
      than 2 t in all, are in order and hold at least the rest between them. */
  lemma WindowBetweenTails(h: seq<int>, lo: int, hi: int, t: real)
    requires forall b :: 0 <= b < |h| ==> h[b] >= 0
    requires 0 <= lo < |h| && 0 <= hi < |h| && 2.0 * t < SumInt(h) as real
    requires SumInt(h[..lo]) as real <= t && SumInt(h[hi + 1..]) as real <= t
    ensures lo <= hi
    ensures SumInt(h[lo..hi + 1]) as real >= SumInt(h) as real - 2.0 * t
  {
    TailsInOrder(h, lo, hi, t);
    SplitSum(h, lo, hi + 1);
  }

  /** The two bins of WindowBetweenTails are in order: otherwise the bins up to hi and
      the bins above it would hold at most 2 t pixels in all. */
  lemma TailsInOrder(h: seq<int>, lo: int, hi: int, t: real)
    requires forall b :: 0 <= b < |h| ==> h[b] >= 0
    requires 0 <= lo < |h| && 0 <= hi < |h| && 2.0 * t < SumInt(h) as real
    requires SumInt(h[..lo]) as real <= t && SumInt(h[hi + 1..]) as real <= t
    ensures lo <= hi
  {
    if hi < lo {
      PrefixSumMonotone(h, hi + 1, lo);
      SplitSum(h, hi + 1, |h|);
      assert false;
    }
  }

  /** The sum of a sequence is the sum of its three parts cut at a and b. */
  lemma SplitSum(h: seq<int>, a: nat, b: nat)
    requires a <= b <= |h|
    ensures SumInt(h) == SumInt(h[..a]) + SumInt(h[a..b]) + SumInt(h[b..])
    ensures b == |h| ==> SumInt(h) == SumInt(h[..a]) + SumInt(h[a..])
  {
    assert h == h[..a] + h[a..b] + h[b..];
    assert h[a..|h|] == h[a..] && h[|h|..] == [];
    SumIntConcat(h[..a] + h[a..b], h[b..]);
    SumIntConcat(h[..a], h[a..b]);
  }

  /** With more than t pixels in all, both indexes are found; at most t pixels lie below
      idx_low and at most t above idx_high. */
  lemma WindowTails(h: seq<int>, t: real)
    requires |h| == NumBins && 0.0 <= t < SumInt(h) as real
    ensures 0 <= IdxLow(h, t) && 0 <= IdxHigh(h, t)
    ensures SumInt(h[..IdxLow(h, t)]) as real <= t
    ensures SumInt(h[IdxHigh(h, t) + 1..]) as real <= t
  {
    var fs, bs := ForwardSums(h), BackwardSums(h);
    assert h[..NumBins] == h;
    assert fs[NumBins - 1] as real > t;
    assert h[0..] == h;
    assert bs[NumBins - 1] as real > t;
    var lo, hi := IdxLow(h, t), IdxHigh(h, t);
    if lo > 0 {
      assert fs[lo - 1] == SumInt(h[..lo]);
    } else {
      assert h[..0] == [];
    }
    if hi < NumBins - 1 {
      assert bs[NumBins - 2 - hi] == SumInt(h[hi + 1..]);
    } else {
      assert h[NumBins..] == [];
    }
  }

  /** For a percentile below 50 the corrected window of a plane is its [percentile,
      100 - percentile] percentile range: idx_low <= idx_high, and at most percentile % of
      the pixels lie in the bins below the window and at most percentile % above it. */
  lemma IntendedWindow(s: seq<real>, percentile: int)
    requires Binnable(s) && |s| > 0 && 0 <= percentile < 50
    ensures var h, t := HistogramOf(s), LowThreshold(|s|, percentile);
      0 <= IdxLow(h, t) <= IdxHigh(h, t) < NumBins &&
      SumInt(h[..IdxLow(h, t)]) as real <= t && SumInt(h[IdxHigh(h, t) + 1..]) as real <= t
  {
    var n := |s|;
    var h, t := HistogramOf(s), LowThreshold(n, percentile);
    HistogramTotal(s);
    assert 0.0 <= t && 2.0 * t < SumInt(h) as real by {
      MulLeq(percentile, 49, n);
      assert (n * percentile) as real <= 49.0 * (n as real);
    }
    PercentileWindow(h, t);
  }

  /** Every value in [0, 1) whose bin lies between idx_low and idx_high is inside the
      one-width window, so the corrected estimate averages all of them. */
  lemma BinInWindow(v: real, idxLow: int, idxHigh: int)
    requires 0.0 <= v < 1.0
    requires idxLow <= Bin(v) <= idxHigh
    ensures InWindow(v, idxLow, idxHigh, Step)
  {
    BinOfUnitValue(v);
    var b := Bin(v) as real;
    assert b * Step + Step == (b + 1.0) * Step;
    assert Step * b <= Step * (idxHigh as real);
    assert Step * (idxLow as real) <= Step * b;
  }

  // ---------------------------------------------------------------------------------
  // The estimate as the source writes it

  /** cum_sum_backward[i] as written: the count of the top bin, then bins NUM_BINS - 1
      down to NUM_BINS - i added one at a time. From the second step on it holds the top
      bin twice. */
  function BackwardAsWritten(h: seq<int>, i: nat): (c: int)
    requires |h| == NumBins && i < NumBins
    ensures i >= 1 ==> c == h[NumBins - 1] + SumInt(h[NumBins - i..])
  {
    if i == 0 then h[NumBins - 1]
    else
      SuffixSumStep(h, NumBins - i);
      BackwardAsWritten(h, i - 1) + h[NumBins - i]
  }

  /** A suffix sum is its first entry plus the sum of the rest. */
  lemma SuffixSumStep(h: seq<int>, j: nat)
    requires j < |h|
    ensures SumInt(h[j..]) == h[j] + SumInt(h[j + 1..])
  {
    assert h[j..] == [h[j]] + h[j + 1..];
    SumIntPrepend(h[j], h[j + 1..]);
  }

  /** The backward running counts as written, one per step. */
  function BackwardSumsAsWritten(h: seq<int>): (c: seq<int>)
    requires |h| == NumBins
    ensures |c| == NumBins
  {
    seq(NumBins, i requires 0 <= i < NumBins => BackwardAsWritten(h, i))
  }

  /** Each step of the loop as written adds bin i to the forward count and bin
      NUM_BINS - i to the backward one. */
  lemma RunningSumsStepAsWritten(h: seq<int>, i: nat)
    requires |h| == NumBins && 1 <= i < NumBins
    ensures ForwardSums(h)[i] == ForwardSums(h)[i - 1] + h[i]
    ensures BackwardSumsAsWritten(h)[i] == BackwardSumsAsWritten(h)[i - 1] + h[NumBins - i]
  {
    assert h[..i + 1][..i] == h[..i];
  }

  /** The last backward running count as written is the total with the top bin counted
      twice and bin 0 not at all. */
  lemma BackwardNeverCountsBinZero(h: seq<int>)
    requires |h| == NumBins
    ensures BackwardAsWritten(h, NumBins - 1) == SumInt(h) - h[0] + h[NumBins - 1]
  {
    assert BackwardAsWritten(h, NumBins - 1) == h[NumBins - 1] + SumInt(h[1..]);
    assert h == [h[0]] + h[1..];
    SumIntPrepend(h[0], h[1..]);
  }

  /** The index the source records for a hit at step i of the backward scan: 0 for
      step 0, NUM_BINS - i after it, and -1 kept for no hit. */
  function FromTopAsWritten(i: int): int
  {
    if i <= 0 then i else NumBins - i
  }

  /** idx_high as written: NUM_BINS - i for the first step i whose backward running
      count exceeds the threshold, except that a hit at step 0 gives 0, the bottom bin,
      where the top bin was meant. */
  function IdxHighAsWritten(h: seq<int>, high: real): (idx: int)
    requires |h| == NumBins
    ensures -1 <= idx < NumBins
    ensures idx == 0 <==> BackwardAsWritten(h, 0) as real > high
    ensures idx >= 1 ==> BackwardAsWritten(h, NumBins - idx) as real > high
    ensures idx >= 1 ==> BackwardAsWritten(h, NumBins - idx - 1) as real <= high
  {
    var c := BackwardSumsAsWritten(h);
    var i := FirstAbove(c, high);
    assert c[0] == BackwardAsWritten(h, 0);
    assert i >= 1 ==> c[i - 1] == BackwardAsWritten(h, i - 1) && c[i] == BackwardAsWritten(h, i);
    FromTopAsWritten(i)
  }

  /** calcIlluminant as written: the window between idx_low and idx_high as written,
      each index scaled by one and a half bin widths. The estimate can reach 1.5 times
      the top bin's value: it lies in [0, 1.5 * 1023 / 1024 + eps]. */
  function IlluminantAsWritten(s: seq<real>, percentile: int): (illuminant: real)
    requires Binnable(s)
    ensures 0.0 <= illuminant <= WidthAsWritten * 1023.0 + Eps
  {
    var h := HistogramOf(s);
    var lo, hi := IdxLow(h, LowThreshold(|s|, percentile)), IdxHighAsWritten(h, HighThreshold(|s|, percentile));
    WindowMeanBound(s, lo, hi, WidthAsWritten);
    WindowMean(s, lo, hi, WidthAsWritten)
  }

  // ---------------------------------------------------------------------------------
  // A plane of one value

  /** A plane of n pixels all holding v. */
  function Uniform(n: nat, v: real): (s: seq<real>)
    ensures |s| == n && forall k :: 0 <= k < n ==> s[k] == v
  {
    seq(n, _ => v)
  }

  /** The histogram of a plane holding one value has every pixel in that value's bin. */
  lemma UniformHistogram(v: real, n: nat)
    requires Bin(v) >= 0
    ensures Binnable(Uniform(n, v))
    ensures forall c :: 0 <= c < NumBins ==> HistogramOf(Uniform(n, v))[c] == if c == Bin(v) then n else 0
  {
    var s := Uniform(n, v);
    CountBinsConstant(Bins(s), NumBins, Bin(v));
  }

  /** For a plane holding one value, both percentile indexes are that value's bin. */
  lemma UniformIndexes(v: real, n: nat, low: real, high: real)
    requires Bin(v) >= 0
    requires 0.0 <= low < n as real && 0.0 <= high < n as real
    ensures Binnable(Uniform(n, v))
    ensures IdxLow(HistogramOf(Uniform(n, v)), low) == Bin(v)
    ensures IdxHigh(HistogramOf(Uniform(n, v)), high) == Bin(v)
  {
    var b := Bin(v);
    UniformHistogram(v, n);
    var h := HistogramOf(Uniform(n, v));
    var fs := ForwardSums(h);
    forall j | 0 <= j < NumBins
      ensures fs[j] == if j >= b then n else 0
    {
      SingleBinPrefix(h, b, j + 1);
    }
    FirstAboveStep(fs, low, b, n);
    var bs := BackwardSums(h);
    forall j | 0 <= j < NumBins
      ensures bs[j] == if j >= NumBins - 1 - b then n else 0
    {
      SingleBinSuffix(h, b, NumBins - 1 - j);
    }
    FirstAboveStep(bs, high, NumBins - 1 - b, n);
  }

  /** For a percentile strictly between 0 and 100, both thresholds lie in [0, n). */
  lemma ThresholdsInRange(n: nat, percentile: int)
    requires n > 0 && 0 < percentile < 100
    ensures 0.0 <= LowThreshold(n, percentile) < n as real
    ensures 0.0 <= HighThreshold(n, percentile) < n as real
  {
    MulLeq(percentile, 100, n);
    assert n * percentile < n * 100;
    var q := 100.0 - percentile as real;
    assert (n as real) * q < (n as real) * 100.0;
  }

  /** Every pixel of value v lies inside the one-bin window of v's bin. */
  lemma UnitValueInOwnWindow(v: real)
    requires 0.0 <= v < 1.0
    ensures InWindow(v, Bin(v), Bin(v), Step)
  {
    BinOfUnitValue(v);
    var b := Bin(v) as real;
    assert b * Step + Step == (b + 1.0) * Step;
  }

  /** A plane holding one value v in [0, 1) has illuminant v when the percentile lies
      strictly between 0 and 100: the window is that value's bin. */
  lemma UniformIlluminant(v: real, n: nat, percentile: int)
    requires 0.0 <= v < 1.0 && n > 0 && 0 < percentile < 100
    ensures Binnable(Uniform(n, v))
    ensures IlluminantOf(Uniform(n, v), percentile) == v
  {
    BinOfUnitValue(v);
    var b := Bin(v);
    var s := Uniform(n, v);
    ThresholdsInRange(n, percentile);
    UniformIndexes(v, n, LowThreshold(n, percentile), LowThreshold(n, percentile));
    assert IlluminantOf(s, percentile) == WindowMean(s, b, b, Step);
    UnitValueInOwnWindow(v);
    SelectedCountExtremes(s, b, b, Step);
    WindowMeanBetween(s, b, b, Step, v, v);
  }

  /** As written, a plane of 0.5 everywhere gets both indexes 512: the backward count
      first exceeds the threshold at step 512, which records bin 1024 - 512. */
  lemma UniformHalfIndexesAsWritten(n: nat)
    requires n > 0
    ensures Binnable(Uniform(n, 0.5))
    ensures IdxLow(HistogramOf(Uniform(n, 0.5)), LowThreshold(n, 20)) == 512
    ensures IdxHighAsWritten(HistogramOf(Uniform(n, 0.5)), HighThreshold(n, 20)) == 512
  {
    assert 0.5 / Step == 512.0;
    assert Bin(0.5) == 512;
    ThresholdsInRange(n, 20);
    UniformIndexes(0.5, n, LowThreshold(n, 20), HighThreshold(n, 20));
    UniformHistogram(0.5, n);
    var h := HistogramOf(Uniform(n, 0.5));
    assert h[NumBins - 1] == 0;
    var c := BackwardSumsAsWritten(h);
    forall j | 0 <= j < NumBins
      ensures c[j] == if j >= 512 then n else 0
    {
      assert c[j] == BackwardAsWritten(h, j);
      if j >= 1 {
        SingleBinSuffix(h, 512, NumBins - j);
      }
    }
    FirstAboveStep(c, HighThreshold(n, 20), 512, n);
  }

  /** As written, a plane of 0.5 everywhere gets illuminant 0 instead of 0.5: idx_low is
      bin 512 and the window starts at 1.5 * 512 / 1024 - 0.001 = 0.749. */
  lemma UniformHalfAsWritten(n: nat)
    requires n > 0
    ensures Binnable(Uniform(n, 0.5))
    ensures IlluminantAsWritten(Uniform(n, 0.5), 20) == 0.0
    ensures IlluminantOf(Uniform(n, 0.5), 20) == 0.5
  {
    var s := Uniform(n, 0.5);
    assert 0.5 / Step == 512.0;
    assert Bin(0.5) == 512;
    UniformIndexes(0.5, n, LowThreshold(n, 20), HighThreshold(n, 20));
    SelectedCountExtremes(s, 512, IdxHighAsWritten(HistogramOf(s), HighThreshold(n, 20)), WidthAsWritten);
    UniformIlluminant(0.5, n, 20);
  }

  // ---------------------------------------------------------------------------------
  // A plane of two values

  /** The plane {0.25, 0.75} puts one pixel in bin 256 and one in bin 768. */
  lemma TwoValuesHistogram()
    ensures Binnable([0.25, 0.75])
    ensures forall c :: 0 <= c < NumBins ==> HistogramOf([0.25, 0.75])[c] == if c == 256 || c == 768 then 1 else 0
  {
    assert 0.25 / Step == 256.0 && 0.75 / Step == 768.0;
    assert Bin(0.25) == 256 && Bin(0.75) == 768;
    var bins := Bins([0.25, 0.75]);
    assert bins == [256, 768];
    assert bins[..1] == [256] && bins[..1][..0] == [];
    var h0 := CountBins([], NumBins);
    assert h0 == seq(NumBins, _ => 0);
    var h1 := CountBins([256], NumBins);
    assert h1 == h0[256 := 1];
    assert CountBins(bins, NumBins) == h1[768 := h1[768] + 1];
  }

  /** The histogram of {0.25, 0.75}: one pixel in bin 256 and one in bin 768. */
  predicate IsTwoValueHistogram(h: seq<int>)
  {
    |h| == NumBins && forall c :: 0 <= c < NumBins ==> h[c] == if c == 256 || c == 768 then 1 else 0
  }

  /** Counted from the bottom, the two-value histogram first exceeds 0.4 pixels at bin 256. */
  lemma TwoValuesForward(h: seq<int>)
    requires IsTwoValueHistogram(h)
    ensures FirstAbove(ForwardSums(h), 0.4) == 256
  {
    var fs := ForwardSums(h);
    forall j | 0 <= j < 256
      ensures fs[j] == 0
    {
      TwoBinPrefix(h, 256, 768, j + 1);
    }
    TwoBinPrefix(h, 256, 768, 257);
    FirstAboveAt(fs, 0.4, 256);
  }

  /** Counted from the top, the two-value histogram first exceeds 0.4 pixels at step 255
      (bin 768) and 1.6 pixels at step 767 (bin 256). */
  lemma TwoValuesBackward(h: seq<int>)
    requires IsTwoValueHistogram(h)
    ensures FirstAbove(BackwardSums(h), 0.4) == 255
    ensures FirstAbove(BackwardSums(h), 1.6) == 767
  {
    var bs := BackwardSums(h);
    forall i | 0 <= i < 767
      ensures bs[i] == if i >= 255 then 1 else 0
    {
      TwoBinSuffix(h, 256, 768, NumBins - 1 - i);
    }
    TwoBinSuffix(h, 256, 768, NumBins - 1 - 767);
    FirstAboveAt(bs, 0.4, 255);
    FirstAboveAt(bs, 1.6, 767);
  }

  /** For {0.25, 0.75} and percentile 20 (threshold 0.4 pixels), the corrected indexes are
      the bins of the two values. Compared with the high threshold of 1.6 pixels, as the
      source does, the count from the top stops at bin 256, the 20th percentile. */
  lemma TwoValuesIndexes()
    ensures Binnable([0.25, 0.75])
    ensures IdxLow(HistogramOf([0.25, 0.75]), LowThreshold(2, 20)) == 256
    ensures IdxHigh(HistogramOf([0.25, 0.75]), LowThreshold(2, 20)) == 768
    ensures IdxHigh(HistogramOf([0.25, 0.75]), HighThreshold(2, 20)) == 256
  {
    TwoValuesHistogram();
    var h := HistogramOf([0.25, 0.75]);
    assert LowThreshold(2, 20) == 0.4 && HighThreshold(2, 20) == 1.6;
    TwoValuesForward(h);
    TwoValuesBackward(h);
  }

  /** Both values lie in the window of bins 256 to 768: the mean is 0.5. */
  lemma TwoValuesWideWindow()
    ensures WindowMean([0.25, 0.75], 256, 768, Step) == 0.5
  {
    var s := [0.25, 0.75];
    assert s[..1] == [0.25] && s[..1][..0] == [];
    assert InWindow(0.25, 256, 768, Step) && InWindow(0.75, 256, 768, Step);
    assert SelectedCount(s, 256, 768, Step) == 2 && SelectedSum(s, 256, 768, Step) == 1.0;
  }

  /** Only 0.25 lies in the window of bin 256: the mean is 0.25. */
  lemma TwoValuesNarrowWindow()
    ensures WindowMean([0.25, 0.75], 256, 256, Step) == 0.25
  {
    var s := [0.25, 0.75];
    assert s[..1] == [0.25] && s[..1][..0] == [];
    assert InWindow(0.25, 256, 256, Step) && !InWindow(0.75, 256, 256, Step);
    assert SelectedCount(s, 256, 256, Step) == 1 && SelectedSum(s, 256, 256, Step) == 0.25;
  }

  /** The corrected estimate of {0.25, 0.75} at percentile 20 is their mean 0.5. With the
      high threshold in the count from the top the window shrinks to bin 256 and the
      estimate is 0.25. */
  lemma TwoValuesIlluminant()
    ensures Binnable([0.25, 0.75])
    ensures IlluminantOf([0.25, 0.75], 20) == 0.5
    ensures var h := HistogramOf([0.25, 0.75]);
      WindowMean([0.25, 0.75], IdxLow(h, LowThreshold(2, 20)), IdxHigh(h, HighThreshold(2, 20)), Step) == 0.25
  {
    TwoValuesIndexes();
    TwoValuesWideWindow();
    TwoValuesNarrowWindow();
  }

  // ---------------------------------------------------------------------------------
  // The loops

  /** The first loop of calcIlluminant: one increment per pixel. */
  method CountPlane(image: array<real>, off: nat, n: nat) returns (histogram: array<int>)
    requires off + n <= image.Length && Binnable(image[off..off + n])
    ensures fresh(histogram)
    ensures histogram[..] == HistogramOf(image[off..off + n])
  {
    ghost var s := image[off..off + n];
    histogram := new int[NumBins](_ => 0);
    var i := 0;
    while i < n
      invariant 0 <= i <= n
      invariant histogram[..] == CountBins(Bins(s[..i]), NumBins)
    {
      assert s[i] == image[off + i];
      var b := Bin(image[off + i]);
      assert Bins(s[..i + 1])[..i] == Bins(s[..i]);
      histogram[b] := histogram[b] + 1;
      i := i + 1;
    }
    assert s[..i] == s;
  }

  /** The second loop of calcIlluminant as written: the forward running count and
      idx_low, and the backward running count that starts from the top bin and adds bin
      NUM_BINS - i at step i, with idx_high recorded as written. */
  method PercentileIndexes(histogram: array<int>, low: real, high: real) returns (idxLow: int, idxHigh: int)
    requires histogram.Length == NumBins
    ensures idxLow == IdxLow(histogram[..], low)
    ensures idxHigh == IdxHighAsWritten(histogram[..], high)
  {
    ghost var h := histogram[..];
    ghost var fs := ForwardSums(h);
    ghost var bs := BackwardSumsAsWritten(h);
    var forward := new int[NumBins](_ => 0);
    var backward := new int[NumBins](_ => 0);
    idxLow := -1;
    idxHigh := -1;
    forward[0] := histogram[0];
    backward[0] := histogram[NumBins - 1];
    assert fs[0] == h[0] by {
      RunningSumsStep(h, 0);
    }
    if forward[0] as real > low {
      idxLow := 0;
    }
    if backward[0] as real > high {
      idxHigh := 0;
    }
    FirstAboveExtend(fs, low, 0);
    FirstAboveExtend(bs, high, 0);
    var i := 1;
    while i < NumBins
      invariant 1 <= i <= NumBins
      invariant forward[i - 1] == fs[i - 1]
      invariant backward[i - 1] == bs[i - 1]
      invariant idxLow == FirstAbove(fs[..i], low)
      invariant idxHigh == FromTopAsWritten(FirstAbove(bs[..i], high))
    {
      RunningSumsStepAsWritten(h, i);
      var f, b := forward[i - 1] + histogram[i], backward[i - 1] + histogram[NumBins - i];
      assert f == fs[i] && b == bs[i];
      forward[i], backward[i] := f, b;
      assert forward[i] == fs[i] && backward[i] == bs[i];
      FirstAboveExtend(fs, low, i);
      FirstAboveExtend(bs, high, i);
      if idxLow == -1 && f as real > low {
        idxLow := i;
      }
      if idxHigh == -1 && b as real > high {
        idxHigh := NumBins - i;
      }
      i := i + 1;
    }
    assert fs[..NumBins] == fs;
    assert bs[..NumBins] == bs;
  }

  /** The second loop of calcIlluminant with each bin counted once from the top, the bin
      reached recorded, and both running counts compared with the low threshold: the
      number of pixels each percentile leaves outside the window. */
  method PercentileIndexesIntended(histogram: array<int>, low: real) returns (idxLow: int, idxHigh: int)
    requires histogram.Length == NumBins
    ensures idxLow == IdxLow(histogram[..], low)
    ensures idxHigh == IdxHigh(histogram[..], low)
  {
    ghost var h := histogram[..];
    ghost var fs := ForwardSums(h);
    ghost var bs := BackwardSums(h);
    var forward := new int[NumBins](_ => 0);
    var backward := new int[NumBins](_ => 0);
    idxLow := -1;
    idxHigh := -1;
    forward[0] := histogram[0];
    backward[0] := histogram[NumBins - 1];
    RunningSumsStep(h, 0);
    if forward[0] as real > low {
      idxLow := 0;
    }
    if backward[0] as real > low {
      idxHigh := NumBins - 1;
    }
    FirstAboveExtend(fs, low, 0);
    FirstAboveExtend(bs, low, 0);
    var i := 1;
    while i < NumBins
      invariant 1 <= i <= NumBins
      invariant forward[i - 1] == fs[i - 1]
      invariant backward[i - 1] == bs[i - 1]
      invariant idxLow == FirstAbove(fs[..i], low)
      invariant idxHigh == FromTop(FirstAbove(bs[..i], low))
    {
      RunningSumsStep(h, i);
      var f, b := forward[i - 1] + histogram[i], backward[i - 1] + histogram[NumBins - 1 - i];
      assert f == fs[i] && b == bs[i];
      forward[i], backward[i] := f, b;
      assert forward[i] == fs[i] && backward[i] == bs[i];
      FirstAboveExtend(fs, low, i);
      FirstAboveExtend(bs, low, i);
      if idxLow == -1 && f as real > low {
        idxLow := i;
      }
      if idxHigh == -1 && b as real > low {
        idxHigh := NumBins - 1 - i;
      }
      i := i + 1;
    }
    assert fs[..NumBins] == fs;
    assert bs[..NumBins] == bs;
  }

  /** The third loop of calcIlluminant: the sum of absolute values and the count of the
      pixels inside the window, each index scaled by the given width. */
  method WindowSum(image: array<real>, off: nat, n: nat, idxLow: int, idxHigh: int, width: real) returns (sum: real, count: nat)
    requires off + n <= image.Length
    ensures sum == SelectedSum(image[off..off + n], idxLow, idxHigh, width)
    ensures count == SelectedCount(image[off..off + n], idxLow, idxHigh, width)
  {
    ghost var s := image[off..off + n];
    sum, count := 0.0, 0;
    var i := 0;
    while i < n
      invariant 0 <= i <= n
      invariant sum == SelectedSum(s[..i], idxLow, idxHigh, width)
      invariant count == SelectedCount(s[..i], idxLow, idxHigh, width)
    {
      assert s[i] == image[off + i];
      assert s[..i + 1][..i] == s[..i];
      var v := image[off + i];
      if v <= width * (idxHigh as real) + Eps && v >= width * (idxLow as real) - Eps {
        sum := sum + Abs(v);
        count := count + 1;
      }
      i := i + 1;
    }
    assert s[..i] == s;
  }

  /** calcIlluminant on the n values of a plane starting at off, as written: the
      window scales each index by 3.0 / 2 * step. */
  method CalcIlluminant(image: array<real>, off: nat, n: nat, percentile: int) returns (illuminant: real)
    requires off + n <= image.Length && Binnable(image[off..off + n])
    ensures illuminant == IlluminantAsWritten(image[off..off + n], percentile)
  {
    ghost var s := image[off..off + n];
    var histogram := CountPlane(image, off, n);
    var low := ((n * percentile) as real) / 100.0;
    var high := (n as real) * (100.0 - percentile as real) / 100.0;
    assert low == LowThreshold(|s|, percentile) && high == HighThreshold(|s|, percentile);
    var idxLow, idxHigh := PercentileIndexes(histogram, low, high);
    var sum, count := WindowSum(image, off, n, idxLow, idxHigh, 3.0 / 2.0 * Step);
    assert WindowMean(s, idxLow, idxHigh, WidthAsWritten) == if count == 0 then 0.0 else sum / (count as real);
    if count == 0 {
      illuminant := 0.0;
    } else {
      illuminant := sum / (count as real);
    }
  }

  /** calcIlluminant with each bin counted once, the bin reached from the top recorded as
      idx_high, the count from the top compared with the low threshold, and the window
      scaled by one bin width. */
  method CalcIlluminantIntended(image: array<real>, off: nat, n: nat, percentile: int) returns (illuminant: real)
    requires off + n <= image.Length && Binnable(image[off..off + n])
    ensures illuminant == IlluminantOf(image[off..off + n], percentile)
  {
    ghost var s := image[off..off + n];
    var histogram := CountPlane(image, off, n);
    var low := ((n * percentile) as real) / 100.0;
    assert low == LowThreshold(|s|, percentile);
    var idxLow, idxHigh := PercentileIndexesIntended(histogram, low);
    var sum, count := WindowSum(image, off, n, idxLow, idxHigh, Step);
    assert WindowMean(s, idxLow, idxHigh, Step) == if count == 0 then 0.0 else sum / (count as real);
    if count == 0 {
      illuminant := 0.0;
    } else {
      illuminant := sum / (count as real);
    }
  }

  /** Plane c of a planar image of n-pixel planes. */
  function PlaneOf(image: seq<real>, n: nat, c: nat): (p: seq<real>)
    requires (c + 1) * n <= |image|
    ensures |p| == n
  {
    image[c * n..c * n + n]
  }

  /** Each of the three planes can be binned. */
  predicate PlanesBinnable(image: seq<real>, n: nat)
  {
    3 * n <= |image| && Binnable(PlaneOf(image, n, 0)) && Binnable(PlaneOf(image, n, 1)) && Binnable(PlaneOf(image, n, 2))
  }

  /** Non-negative values always land in a bin. */
  lemma NonNegativeBinnable(s: seq<real>)
    requires forall k :: 0 <= k < |s| ==> s[k] >= 0.0
    ensures Binnable(s)
  {
  }

  /** One iteration of calcIlluminantRGB: the illuminant of plane c. */
  method PlaneIlluminant(image: array<real>, n: nat, c: nat, percentile: int) returns (illuminant: real)
    requires (c + 1) * n <= image.Length && Binnable(PlaneOf(image[..], n, c))
    ensures illuminant == IlluminantAsWritten(PlaneOf(image[..], n, c), percentile)
  {
    assert image[c * n..c * n + n] == PlaneOf(image[..], n, c);
    illuminant := CalcIlluminant(image, c * n, n, percentile);
  }

  /** The three illuminants of a planar image, each computed by calcIlluminant. */
  method PlaneIlluminants(image: array<real>, n: nat, percentile: int) returns (red: real, green: real, blue: real)
    requires PlanesBinnable(image[..], n)
    ensures red == IlluminantAsWritten(PlaneOf(image[..], n, 0), percentile)
    ensures green == IlluminantAsWritten(PlaneOf(image[..], n, 1), percentile)
    ensures blue == IlluminantAsWritten(PlaneOf(image[..], n, 2), percentile)
  {
    red := PlaneIlluminant(image, n, 0, percentile);
    green := PlaneIlluminant(image, n, 1, percentile);
    blue := PlaneIlluminant(image, n, 2, percentile);
  }

  /** calcIlluminantRGB: the illuminant of each of the three planes, written into the
      three-entry buffer the result is returned in. */
  method CalcIlluminantRgb(image: array<real>, n: nat, percentile: int, illuminants: array<real>)
    requires PlanesBinnable(image[..], n) && illuminants.Length == 3 && illuminants != image
    modifies illuminants
    ensures illuminants[0] == IlluminantAsWritten(PlaneOf(old(image[..]), n, 0), percentile)
    ensures illuminants[1] == IlluminantAsWritten(PlaneOf(old(image[..]), n, 1), percentile)
    ensures illuminants[2] == IlluminantAsWritten(PlaneOf(old(image[..]), n, 2), percentile)
  {
    var red, green, blue := PlaneIlluminants(image, n, percentile);
    illuminants[0], illuminants[1], illuminants[2] := red, green, blue;
  }
}
