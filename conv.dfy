/** Zero-padded "same" 2D correlation of a row-major plane with a square filter
    (conv.c). Planes are flat, row-major: cell (row, col) of a plane with `cols`
    columns is entry `row * cols + col`. */
module Conv {
  import opened CMath

  /** Padding added on each side for a filter of side k: C's `(k - 1) / 2`, truncating. */
  function PadOf(k: nat): nat
  {
    if k == 0 then 0 else (k - 1) / 2
  }

  /** Cell (j, i) of the padded plane: zero in the border of width p, the input shifted
      by p inside it. */
  function PadCell(input: seq<real>, rows: nat, cols: nat, p: nat, j: nat, i: nat): real
    requires |input| >= rows * cols
  {
    if i < p || i >= cols + p || j < p || j >= rows + p then 0.0
    else
      RowMajorInBounds(j - p, i - p, cols, rows);
      input[(j - p) * cols + (i - p)]
  }

  /** The padded plane that padMatrix builds: (rows + 2p) x (cols + 2p), row-major. */
  function Padded(input: seq<real>, rows: nat, cols: nat, k: nat): (pad: seq<real>)
    requires |input| >= rows * cols
    ensures |pad| == (rows + 2 * PadOf(k)) * (cols + 2 * PadOf(k))
  {
    var p := PadOf(k);
    var w := cols + 2 * p;
    seq((rows + 2 * p) * w, x requires 0 <= x < (rows + 2 * p) * w =>
      FlatIndexSplit(x, w, rows + 2 * p);
      PadCell(input, rows, cols, p, x / w, x % w))
  }

  /** Entry j * w + i of the padded plane is its cell (j, i). */
  lemma PaddedAt(input: seq<real>, rows: nat, cols: nat, k: nat, j: nat, i: nat)
    requires |input| >= rows * cols
    requires j < rows + 2 * PadOf(k) && i < cols + 2 * PadOf(k)
    ensures 0 <= j * (cols + 2 * PadOf(k)) + i < |Padded(input, rows, cols, k)|
    ensures Padded(input, rows, cols, k)[j * (cols + 2 * PadOf(k)) + i] == PadCell(input, rows, cols, PadOf(k), j, i)
  {
    var w := cols + 2 * PadOf(k);
    RowMajorInBounds(j, i, w, rows + 2 * PadOf(k));
    RowMajorDivMod(j, i, w);
  }

  /** Every border cell of the padded plane is zero. */
  lemma PaddedBorderIsZero(input: seq<real>, rows: nat, cols: nat, k: nat, j: nat, i: nat)
    requires |input| >= rows * cols
    requires j < rows + 2 * PadOf(k) && i < cols + 2 * PadOf(k)
    requires i < PadOf(k) || i >= cols + PadOf(k) || j < PadOf(k) || j >= rows + PadOf(k)
    ensures 0 <= j * (cols + 2 * PadOf(k)) + i < |Padded(input, rows, cols, k)|
    ensures Padded(input, rows, cols, k)[j * (cols + 2 * PadOf(k)) + i] == 0.0
  {
    PaddedAt(input, rows, cols, k, j, i);
  }

  /** Every interior cell of the padded plane holds the input cell it was copied from. */
  lemma PaddedInteriorIsInput(input: seq<real>, rows: nat, cols: nat, k: nat, row: nat, col: nat)
    requires |input| >= rows * cols
    requires row < rows && col < cols
    ensures 0 <= row * cols + col < |input|
    ensures 0 <= (row + PadOf(k)) * (cols + 2 * PadOf(k)) + col + PadOf(k) < |Padded(input, rows, cols, k)|
    ensures Padded(input, rows, cols, k)[(row + PadOf(k)) * (cols + 2 * PadOf(k)) + col + PadOf(k)]
            == input[row * cols + col]
  {
    RowMajorInBounds(row, col, cols, rows);
    PaddedAt(input, rows, cols, k, row + PadOf(k), col + PadOf(k));
  }

  /** The width convHelper assumes for the padded plane, cols + k - 1, is the width
      padMatrix produces exactly when the filter side is odd. */
  lemma PaddedWidthMatchesOnlyForOddK(cols: nat, k: nat)
    requires k >= 1
    ensures cols + 2 * PadOf(k) == cols + k - 1 <==> k % 2 == 1
  {
  }

  /** padMatrix: fills the first (rows + 2p) * (cols + 2p) entries of padMat with the
      padded plane of the input plane starting at inOff, writing nothing else. */
  method PadMatrix(input: array<real>, inOff: nat, padMat: array<real>, rows: nat, cols: nat, k: nat)
    requires inOff + rows * cols <= input.Length
    requires (rows + 2 * PadOf(k)) * (cols + 2 * PadOf(k)) <= padMat.Length
    requires input != padMat
    modifies padMat
    ensures padMat[..(rows + 2 * PadOf(k)) * (cols + 2 * PadOf(k))]
            == Padded(input[inOff..inOff + rows * cols], rows, cols, k)
    ensures padMat[(rows + 2 * PadOf(k)) * (cols + 2 * PadOf(k))..]
            == old(padMat[(rows + 2 * PadOf(k)) * (cols + 2 * PadOf(k))..])
  {
    var p := PadOf(k);
    var outRows := rows + 2 * p;
    var outCols := cols + 2 * p;
    ghost var plane := input[inOff..inOff + rows * cols];
    ghost var pad := Padded(plane, rows, cols, k);
    // pos is the flat index j * outCols + i of the cell being written
    ghost var pos := 0;
    var j := 0;
    while j < outRows
      invariant 0 <= j <= outRows && pos == j * outCols && pos <= outRows * outCols
      invariant forall x :: 0 <= x < pos ==> padMat[x] == pad[x]
      invariant forall x :: pos <= x < padMat.Length ==> padMat[x] == old(padMat[x])
    {
      var i := 0;
      while i < outCols
        invariant 0 <= i <= outCols && pos == j * outCols + i && pos <= outRows * outCols
        invariant forall x :: 0 <= x < pos ==> padMat[x] == pad[x]
        invariant forall x :: pos <= x < padMat.Length ==> padMat[x] == old(padMat[x])
      {
        PaddedAt(plane, rows, cols, k, j, i);
        RowMajorInBounds(j, i, outCols, outRows);
        if i < p || i >= cols + p || j < p || j >= rows + p {
          padMat[j * outCols + i] := 0.0;
        } else {
          RowMajorInBounds(j - p, i - p, cols, rows);
          padMat[j * outCols + i] := input[inOff + (j - p) * cols + (i - p)];
        }
        i := i + 1;
        pos := pos + 1;
      }
      assert pos == (j + 1) * outCols;
      j := j + 1;
    }
    assert padMat[..outRows * outCols] == pad;
  }

  /** Index into the padded plane of filter tap t for output cell (row, col). */
  function TapIndex(row: nat, col: nat, t: nat, k: nat, padCols: nat): nat
    requires k > 0
  {
    (row + t / k) * padCols + col + t % k
  }

  /** The first n taps of output cell (row, col) all read below padLen. */
  predicate TapsInside(padLen: nat, row: nat, col: nat, k: nat, padCols: nat, n: nat)
    requires k > 0
  {
    forall t :: 0 <= t < n ==> TapIndex(row, col, t, k, padCols) < padLen
  }

  /** The running sum of convHelper's innermost loop after its first n taps. */
  function CorrSum(pad: seq<real>, filter: seq<real>, padCols: nat, k: nat, row: nat, col: nat, n: nat): real
    requires k > 0 && n <= |filter|
    requires TapsInside(|pad|, row, col, k, padCols, n)
  {
    if n == 0 then 0.0
    else CorrSum(pad, filter, padCols, k, row, col, n - 1)
         + pad[TapIndex(row, col, n - 1, k, padCols)] * filter[n - 1]
  }

  /** For an odd filter side every tap of every output cell reads inside the padded plane. */
  lemma TapsInBounds(rows: nat, cols: nat, k: nat, row: nat, col: nat)
    requires k % 2 == 1 && row < rows && col < cols
    ensures (rows + 2 * PadOf(k)) * (cols + 2 * PadOf(k)) == (rows + k - 1) * (cols + k - 1)
    ensures TapsInside((rows + k - 1) * (cols + k - 1), row, col, k, cols + k - 1, k * k)
  {
    var w := cols + k - 1;
    forall t | 0 <= t < k * k
      ensures TapIndex(row, col, t, k, w) < (rows + k - 1) * w
    {
      FlatIndexSplit(t, k, k);
      RowMajorInBounds(row + t / k, col + t % k, w, rows + k - 1);
    }
  }

  /** conv2D's result: the "same"-size correlation of the plane with the k x k filter. */
  function Correlate(input: seq<real>, filter: seq<real>, rows: nat, cols: nat, k: nat): (out: seq<real>)
    requires |input| >= rows * cols && |filter| >= k * k && k % 2 == 1
    ensures |out| == rows * cols
  {
    var pad := Padded(input, rows, cols, k);
    seq(rows * cols, x requires 0 <= x < rows * cols =>
      FlatIndexSplit(x, cols, rows);
      TapsInBounds(rows, cols, k, x / cols, x % cols);
      CorrSum(pad, filter, cols + k - 1, k, x / cols, x % cols, k * k))
  }

  /** Output cell (row, col) is the sum over the k * k taps of filter[t] times the padded
      cell at (row + t / k, col + t % k). */
  lemma CorrelateAt(input: seq<real>, filter: seq<real>, rows: nat, cols: nat, k: nat, row: nat, col: nat)
    requires |input| >= rows * cols && |filter| >= k * k && k % 2 == 1
    requires row < rows && col < cols
    ensures row * cols + col < rows * cols
    ensures TapsInside(|Padded(input, rows, cols, k)|, row, col, k, cols + k - 1, k * k)
    ensures Correlate(input, filter, rows, cols, k)[row * cols + col]
            == CorrSum(Padded(input, rows, cols, k), filter, cols + k - 1, k, row, col, k * k)
  {
    RowMajorInBounds(row, col, cols, rows);
    RowMajorDivMod(row, col, cols);
    TapsInBounds(rows, cols, k, row, col);
  }

  /** The first n taps of output cell (row, col) read inside the padded plane, and
      every one of them reads v. */
  predicate TapsRead(pad: seq<real>, row: nat, col: nat, k: nat, padCols: nat, n: nat, v: real)
    requires k > 0
  {
    TapsInside(|pad|, row, col, k, padCols, n)
    && forall t :: 0 <= t < n ==> pad[TapIndex(row, col, t, k, padCols)] == v
  }

  /** When every one of the first n taps reads the value v, their sum is v times the
      sum of the first n filter coefficients. */
  lemma {:induction false} CorrSumOfConstantTaps(pad: seq<real>, filter: seq<real>, padCols: nat, k: nat,
                                                 row: nat, col: nat, n: nat, v: real)
    requires k > 0 && n <= |filter|
    requires TapsRead(pad, row, col, k, padCols, n, v)
    ensures CorrSum(pad, filter, padCols, k, row, col, n) == Sum(Scale(filter[..n], v))
  {
    if n > 0 {
      CorrSumOfConstantTaps(pad, filter, padCols, k, row, col, n - 1, v);
      ScaleTake(filter, n, v);
      assert pad[TapIndex(row, col, n - 1, k, padCols)] == v;
    }
  }

  /** A filter that is zero except for a single tap c picks out that tap's cell. */
  lemma {:induction false} CorrSumOfSingleTap(pad: seq<real>, filter: seq<real>, padCols: nat, k: nat,
                                              row: nat, col: nat, n: nat, c: nat)
    requires k > 0 && n <= |filter| && c < n
    requires TapsInside(|pad|, row, col, k, padCols, n)
    requires forall t :: 0 <= t < n && t != c ==> filter[t] == 0.0
    ensures CorrSum(pad, filter, padCols, k, row, col, n) == pad[TapIndex(row, col, c, k, padCols)] * filter[c]
  {
    var last := pad[TapIndex(row, col, n - 1, k, padCols)] * filter[n - 1];
    assert CorrSum(pad, filter, padCols, k, row, col, n) == CorrSum(pad, filter, padCols, k, row, col, n - 1) + last;
    if n - 1 == c {
      CorrSumOfNoTaps(pad, filter, padCols, k, row, col, c);
      assert CorrSum(pad, filter, padCols, k, row, col, n) == last;
    } else {
      assert filter[n - 1] == 0.0;
      assert CorrSum(pad, filter, padCols, k, row, col, n) == CorrSum(pad, filter, padCols, k, row, col, n - 1);
      CorrSumOfSingleTap(pad, filter, padCols, k, row, col, n - 1, c);
    }
  }

  /** When every tap but tap c reads a zero cell, the sum is that cell times filter[c]
      (or 0 when c is not among the first n taps). */
  lemma {:induction false} CorrSumOfOneCell(pad: seq<real>, filter: seq<real>, padCols: nat, k: nat,
                                            row: nat, col: nat, n: nat, c: nat)
    requires k > 0 && n <= |filter|
    requires TapsInside(|pad|, row, col, k, padCols, n)
    requires forall t :: 0 <= t < n && t != c ==> pad[TapIndex(row, col, t, k, padCols)] == 0.0
    ensures c < n ==> TapIndex(row, col, c, k, padCols) < |pad|
    ensures CorrSum(pad, filter, padCols, k, row, col, n)
            == if c < n then pad[TapIndex(row, col, c, k, padCols)] * filter[c] else 0.0
  {
    if n > 0 {
      CorrSumOfOneCell(pad, filter, padCols, k, row, col, n - 1, c);
    }
  }

  lemma {:induction false} CorrSumOfNoTaps(pad: seq<real>, filter: seq<real>, padCols: nat, k: nat,
                                           row: nat, col: nat, n: nat)
    requires k > 0 && n <= |filter|
    requires TapsInside(|pad|, row, col, k, padCols, n)
    requires forall t :: 0 <= t < n ==> filter[t] == 0.0
    ensures CorrSum(pad, filter, padCols, k, row, col, n) == 0.0
  {
    if n > 0 {
      CorrSumOfNoTaps(pad, filter, padCols, k, row, col, n - 1);
    }
  }

  /** The k x k filter with a single 1 at its centre tap. */
  predicate IsIdentityFilter(filter: seq<real>, k: nat)
    requires |filter| >= k * k
  {
    forall t :: 0 <= t < k * k ==> filter[t] == (if t == PadOf(k) * k + PadOf(k) then 1.0 else 0.0)
  }

  /** Correlating with the identity filter returns the plane unchanged. */
  lemma CorrelateIdentity(input: seq<real>, filter: seq<real>, rows: nat, cols: nat, k: nat)
    requires |input| >= rows * cols && |filter| >= k * k && k % 2 == 1
    requires IsIdentityFilter(filter, k)
    ensures Correlate(input, filter, rows, cols, k) == input[..rows * cols]
  {
    var out := Correlate(input, filter, rows, cols, k);
    forall x | 0 <= x < rows * cols
      ensures out[x] == input[x]
    {
      IdentityCell(input, filter, rows, cols, k, x);
    }
  }

  /** One output cell of the correlation with the identity filter: the centre tap reads
      the input cell. */
  lemma IdentityCell(input: seq<real>, filter: seq<real>, rows: nat, cols: nat, k: nat, x: nat)
    requires |input| >= rows * cols && |filter| >= k * k && k % 2 == 1
    requires IsIdentityFilter(filter, k)
    requires x < rows * cols
    ensures Correlate(input, filter, rows, cols, k)[x] == input[x]
  {
    FlatIndexSplit(x, cols, rows);
    var row, col := x / cols, x % cols;
    var p, w := PadOf(k), cols + k - 1;
    var c := p * k + p;
    CentreTap(row, col, k, cols);
    var pad := Padded(input, rows, cols, k);
    CorrelateAt(input, filter, rows, cols, k, row, col);
    CorrSumOfSingleTap(pad, filter, w, k, row, col, k * k, c);
    PaddedInteriorIsInput(input, rows, cols, k, row, col);
  }

  /** The centre tap of a k x k filter, k odd, sits at row p and column p, so for output
      cell (row, col) it reads padded cell (row + p, col + p). */
  lemma CentreTap(row: nat, col: nat, k: nat, cols: nat)
    requires k % 2 == 1
    ensures 0 <= PadOf(k) * k + PadOf(k) < k * k
    ensures TapIndex(row, col, PadOf(k) * k + PadOf(k), k, cols + k - 1)
            == (row + PadOf(k)) * (cols + 2 * PadOf(k)) + col + PadOf(k)
  {
    var p := PadOf(k);
    assert k == 2 * p + 1;
    MulLeq(p, k - 1, k);
    RowMajorDivMod(p, p, k);
    assert cols + k - 1 == cols + 2 * p;
  }

  /** Away from the border, the tap at offset (a, b) of output cell (row, col) reads the
      input cell (row + a - p, col + b - p). */
  lemma InteriorTap(input: seq<real>, rows: nat, cols: nat, k: nat, row: nat, col: nat, a: nat, b: nat)
    requires |input| >= rows * cols && k % 2 == 1
    requires PadOf(k) <= row < rows - PadOf(k) && PadOf(k) <= col < cols - PadOf(k)
    requires a < k && b < k
    ensures 0 <= (row + a) * (cols + k - 1) + col + b < |Padded(input, rows, cols, k)|
            && 0 <= (row + a - PadOf(k)) * cols + (col + b - PadOf(k)) < rows * cols
            && Padded(input, rows, cols, k)[(row + a) * (cols + k - 1) + col + b]
            == input[(row + a - PadOf(k)) * cols + (col + b - PadOf(k))]
  {
    var p := PadOf(k);
    var j, i := row + a - p, col + b - p;
    assert j < rows && i < cols;
    PaddedInteriorIsInput(input, rows, cols, k, j, i);
    RowMajorInBounds(j, i, cols, rows);
    assert (row + a) * (cols + k - 1) + col + b == (j + p) * (cols + 2 * p) + i + p by {
      assert j + p == row + a && cols + 2 * p == cols + k - 1;
    }
  }

  /** Away from the border every tap of a constant plane v reads v. */
  lemma InteriorTapsReadConstant(input: seq<real>, rows: nat, cols: nat, k: nat, v: real, row: nat, col: nat)
    requires |input| >= rows * cols && k % 2 == 1
    requires forall y :: 0 <= y < rows * cols ==> input[y] == v
    requires PadOf(k) <= row < rows - PadOf(k) && PadOf(k) <= col < cols - PadOf(k)
    ensures TapsRead(Padded(input, rows, cols, k), row, col, k, cols + k - 1, k * k, v)
  {
    var pad := Padded(input, rows, cols, k);
    var w := cols + k - 1;
    forall t | 0 <= t < k * k
      ensures TapIndex(row, col, t, k, w) < |pad| && pad[TapIndex(row, col, t, k, w)] == v
    {
      FlatIndexSplit(t, k, k);
      InteriorTap(input, rows, cols, k, row, col, t / k, t % k);
    }
  }

  /** Away from the border, the tap sum of a constant plane v is v times the filter's sum. */
  lemma ConstantInteriorTapSum(input: seq<real>, filter: seq<real>, rows: nat, cols: nat, k: nat,
                               v: real, row: nat, col: nat)
    requires |input| >= rows * cols && |filter| >= k * k && k % 2 == 1
    requires forall y :: 0 <= y < rows * cols ==> input[y] == v
    requires PadOf(k) <= row < rows - PadOf(k) && PadOf(k) <= col < cols - PadOf(k)
    ensures TapsInside(|Padded(input, rows, cols, k)|, row, col, k, cols + k - 1, k * k)
    ensures CorrSum(Padded(input, rows, cols, k), filter, cols + k - 1, k, row, col, k * k) == Sum(Scale(filter[..k * k], v))
  {
    InteriorTapsReadConstant(input, rows, cols, k, v, row, col);
    CorrSumOfConstantTaps(Padded(input, rows, cols, k), filter, cols + k - 1, k, row, col, k * k, v);
  }

  /** Away from the border, correlating a constant plane v gives v times the filter's sum. */
  lemma CorrelateConstantInterior(input: seq<real>, filter: seq<real>, rows: nat, cols: nat, k: nat,
                                  v: real, x: nat)
    requires |input| >= rows * cols && |filter| >= k * k && k % 2 == 1
    requires forall y :: 0 <= y < rows * cols ==> input[y] == v
    requires x < rows * cols && cols > 0
    requires PadOf(k) <= x / cols < rows - PadOf(k) && PadOf(k) <= x % cols < cols - PadOf(k)
    ensures Correlate(input, filter, rows, cols, k)[x] == Sum(Scale(filter[..k * k], v))
  {
    var row, col := x / cols, x % cols;
    assert x == row * cols + col;
    ConstantInteriorTapSum(input, filter, rows, cols, k, v, row, col);
    CorrelateCell(input, filter, rows, cols, k, row, col, Sum(Scale(filter[..k * k], v)));
  }

  /** CorrelateAt, for a value s already known to be the cell's tap sum. */
  lemma CorrelateCell(input: seq<real>, filter: seq<real>, rows: nat, cols: nat, k: nat, row: nat, col: nat, s: real)
    requires |input| >= rows * cols && |filter| >= k * k && k % 2 == 1
    requires row < rows && col < cols
    requires TapsInside(|Padded(input, rows, cols, k)|, row, col, k, cols + k - 1, k * k)
    requires s == CorrSum(Padded(input, rows, cols, k), filter, cols + k - 1, k, row, col, k * k)
    ensures row * cols + col < rows * cols
    ensures Correlate(input, filter, rows, cols, k)[row * cols + col] == s
  {
    CorrelateAt(input, filter, rows, cols, k, row, col);
  }

  /** The innermost loop of convHelper: the sum over the k * k taps of output cell
      (row, col), reading the padded plane of width padCols. */
  method TapSum(padMat: array<real>, filter: array<real>, padCols: nat, k: nat, row: nat, col: nat)
    returns (sum: real)
    requires k > 0 && k * k <= filter.Length
    requires TapsInside(padMat.Length, row, col, k, padCols, k * k)
    ensures sum == CorrSum(padMat[..], filter[..k * k], padCols, k, row, col, k * k)
  {
    var filterOffset := k * k;
    sum := 0.0;
    var t := 0;
    while t < filterOffset
      invariant 0 <= t <= filterOffset
      invariant TapsInside(padMat.Length, row, col, k, padCols, t)
      invariant sum == CorrSum(padMat[..], filter[..k * k], padCols, k, row, col, t)
    {
      assert TapIndex(row, col, t, k, padCols) < padMat.Length;
      sum := sum + padMat[(row + t / k) * padCols + col + t % k] * filter[t];
      t := t + 1;
    }
  }

  /** convHelper: writes the correlation of the plane at input[inOff..] into the plane at
      output[outOff..], leaving the rest of output alone. The input is copied into a
      fresh padded buffer first, so output may even be the input buffer. */
  method ConvHelper(input: array<real>, inOff: nat, filter: array<real>, output: array<real>, outOff: nat,
                    rows: nat, cols: nat, k: nat)
    requires k % 2 == 1
    requires inOff + rows * cols <= input.Length
    requires k * k <= filter.Length
    requires outOff + rows * cols <= output.Length
    requires output != filter
    modifies output
    ensures output[outOff..outOff + rows * cols]
            == Correlate(old(input[inOff..inOff + rows * cols]), old(filter[..k * k]), rows, cols, k)
    ensures forall x :: 0 <= x < output.Length && !(outOff <= x < outOff + rows * cols) ==> output[x] == old(output[x])
  {
    var padNumRow: nat := rows + (k - 1);
    var padNumCol: nat := cols + (k - 1);
    var padMat := new real[padNumRow * padNumCol];
    ghost var plane := input[inOff..inOff + rows * cols];
    ghost var flt := filter[..k * k];
    PadMatrix(input, inOff, padMat, rows, cols, k);
    ghost var out := Correlate(plane, flt, rows, cols, k);
    var row := 0;
    while row < rows
      invariant 0 <= row <= rows && row * cols <= rows * cols
      invariant padMat[..] == Padded(plane, rows, cols, k) && flt == filter[..k * k]
      invariant forall x :: 0 <= x < row * cols ==> output[outOff + x] == out[x]
      invariant forall x :: 0 <= x < output.Length && !(outOff <= x < outOff + row * cols) ==> output[x] == old(output[x])
    {
      assert (row + 1) * cols == row * cols + cols;
      MulLeq(row + 1, rows, cols);
      ConvRow(padMat, filter, output, outOff, rows, cols, k, row, plane, row * cols);
      row := row + 1;
    }
  }

  /** One pass of convHelper's row loop: output cells base to base + cols - 1, that is
      (row, 0) to (row, cols - 1), of the correlation, each the tap sum over the padded
      plane. */
  method ConvRow(padMat: array<real>, filter: array<real>, output: array<real>, outOff: nat,
                 rows: nat, cols: nat, k: nat, row: nat, ghost plane: seq<real>, ghost base: nat)
    requires k % 2 == 1 && row < rows && base == row * cols && base + cols <= rows * cols
    requires |plane| >= rows * cols && k * k <= filter.Length
    requires padMat[..] == Padded(plane, rows, cols, k)
    requires outOff + rows * cols <= output.Length
    requires output != filter && output != padMat
    modifies output
    ensures forall x :: base <= x < base + cols ==> output[outOff + x] == Correlate(plane, filter[..k * k], rows, cols, k)[x]
    ensures forall x :: 0 <= x < output.Length && !(outOff + base <= x < outOff + base + cols) ==> output[x] == old(output[x])
  {
    ghost var corr := Correlate(plane, filter[..k * k], rows, cols, k);
    var padNumCol: nat := cols + (k - 1);
    var col := 0;
    while col < cols
      invariant 0 <= col <= cols
      invariant forall x :: base <= x < base + col ==> output[outOff + x] == corr[x]
      invariant forall x :: 0 <= x < output.Length && !(outOff + base <= x < outOff + base + col) ==> output[x] == old(output[x])
    {
      CorrelateAt(plane, filter[..k * k], rows, cols, k, row, col);
      var sum := TapSum(padMat, filter, padNumCol, k, row, col);
      assert outOff + col + row * cols == outOff + (base + col);
      output[outOff + col + row * cols] := sum;
      col := col + 1;
    }
  }

  /** conv2D: a fresh rows * cols plane holding the correlation of the input plane. */
  method Conv2D(input: array<real>, filter: array<real>, rows: nat, cols: nat, k: nat) returns (output: array<real>)
    requires k % 2 == 1
    requires rows * cols <= input.Length
    requires k * k <= filter.Length
    ensures fresh(output) && output.Length == rows * cols
    ensures output[..] == Correlate(input[..rows * cols], filter[..k * k], rows, cols, k)
  {
    output := new real[cols * rows];
    ConvHelper(input, 0, filter, output, 0, rows, cols, k);
    assert output[..] == output[0..rows * cols];
  }

  /** c is the pointwise sum of two planes a and b of the same length. */
  predicate IsSum(c: seq<real>, a: seq<real>, b: seq<real>)
  {
    |c| == |a| == |b| && forall x :: 0 <= x < |c| ==> c[x] == a[x] + b[x]
  }

  /** c is the plane a with every entry multiplied by s. */
  predicate IsScaled(c: seq<real>, a: seq<real>, s: real)
  {
    |c| == |a| && forall x :: 0 <= x < |c| ==> c[x] == s * a[x]
  }

  /** Padding commutes with adding planes: the border stays zero and the interior is copied. */
  lemma PaddedAdditive(a: seq<real>, b: seq<real>, c: seq<real>, rows: nat, cols: nat, k: nat)
    requires |a| >= rows * cols
    requires IsSum(c, a, b)
    ensures IsSum(Padded(c, rows, cols, k), Padded(a, rows, cols, k), Padded(b, rows, cols, k))
  {
    var p := PadOf(k);
    var w := cols + 2 * p;
    var pa, pb, pc := Padded(a, rows, cols, k), Padded(b, rows, cols, k), Padded(c, rows, cols, k);
    forall x | 0 <= x < |pc|
      ensures pc[x] == pa[x] + pb[x]
    {
      FlatIndexSplit(x, w, rows + 2 * p);
      var j, i := x / w, x % w;
      if !(i < p || i >= cols + p || j < p || j >= rows + p) {
        RowMajorInBounds(j - p, i - p, cols, rows);
      }
    }
  }

  /** Padding commutes with scaling a plane, cell (j, i) at a time. */
  lemma PaddedHomogeneousAt(a: seq<real>, c: seq<real>, rows: nat, cols: nat, k: nat, s: real, j: nat, i: nat)
    requires |a| >= rows * cols
    requires IsScaled(c, a, s)
    requires j < rows + 2 * PadOf(k) && i < cols + 2 * PadOf(k)
    ensures 0 <= j * (cols + 2 * PadOf(k)) + i < |Padded(a, rows, cols, k)|
    ensures Padded(c, rows, cols, k)[j * (cols + 2 * PadOf(k)) + i] == s * Padded(a, rows, cols, k)[j * (cols + 2 * PadOf(k)) + i]
  {
    var p := PadOf(k);
    PaddedAt(a, rows, cols, k, j, i);
    PaddedAt(c, rows, cols, k, j, i);
    if !(i < p || i >= cols + p || j < p || j >= rows + p) {
      RowMajorInBounds(j - p, i - p, cols, rows);
    }
  }

  /** Padding commutes with scaling a plane. */
  lemma PaddedHomogeneous(a: seq<real>, c: seq<real>, rows: nat, cols: nat, k: nat, s: real)
    requires |a| >= rows * cols
    requires IsScaled(c, a, s)
    ensures IsScaled(Padded(c, rows, cols, k), Padded(a, rows, cols, k), s)
  {
    forall x | 0 <= x < |Padded(c, rows, cols, k)|
      ensures Padded(c, rows, cols, k)[x] == s * Padded(a, rows, cols, k)[x]
    {
      PaddedHomogeneousAtFlat(a, c, rows, cols, k, s, x);
    }
  }

  /** PaddedHomogeneousAt at a flat index of the padded plane. */
  lemma PaddedHomogeneousAtFlat(a: seq<real>, c: seq<real>, rows: nat, cols: nat, k: nat, s: real, x: int)
    requires |a| >= rows * cols
    requires IsScaled(c, a, s)
    requires 0 <= x < |Padded(c, rows, cols, k)|
    ensures x < |Padded(a, rows, cols, k)|
    ensures Padded(c, rows, cols, k)[x] == s * Padded(a, rows, cols, k)[x]
  {
    var w := cols + 2 * PadOf(k);
    FlatIndexSplit(x, w, rows + 2 * PadOf(k));
    var j, i := x / w, x % w;
    PaddedHomogeneousAt(a, c, rows, cols, k, s, j, i);
    assert j * w + i == x;
  }

  /** The tap sum of a sum of padded planes is the sum of their tap sums. */
  lemma {:induction false} CorrSumAdditive(pa: seq<real>, pb: seq<real>, pc: seq<real>, filter: seq<real>,
                                           padCols: nat, k: nat, row: nat, col: nat, n: nat)
    requires k > 0 && n <= |filter|
    requires IsSum(pc, pa, pb)
    requires TapsInside(|pa|, row, col, k, padCols, n)
    ensures CorrSum(pc, filter, padCols, k, row, col, n)
            == CorrSum(pa, filter, padCols, k, row, col, n) + CorrSum(pb, filter, padCols, k, row, col, n)
  {
    if n > 0 {
      CorrSumAdditive(pa, pb, pc, filter, padCols, k, row, col, n - 1);
      var t := TapIndex(row, col, n - 1, k, padCols);
      assert pc[t] * filter[n - 1] == pa[t] * filter[n - 1] + pb[t] * filter[n - 1];
    }
  }

  /** The tap sum of a scaled padded plane is the scaled tap sum. */
  lemma {:induction false} CorrSumHomogeneous(pa: seq<real>, pc: seq<real>, filter: seq<real>,
                                              padCols: nat, k: nat, row: nat, col: nat, n: nat, s: real)
    requires k > 0 && n <= |filter|
    requires IsScaled(pc, pa, s)
    requires TapsInside(|pa|, row, col, k, padCols, n)
    ensures CorrSum(pc, filter, padCols, k, row, col, n) == s * CorrSum(pa, filter, padCols, k, row, col, n)
  {
    if n > 0 {
      CorrSumHomogeneous(pa, pc, filter, padCols, k, row, col, n - 1, s);
      var t := TapIndex(row, col, n - 1, k, padCols);
      var prev := CorrSum(pa, filter, padCols, k, row, col, n - 1);
      assert pc[t] * filter[n - 1] == s * (pa[t] * filter[n - 1]);
      assert s * (prev + pa[t] * filter[n - 1]) == s * prev + s * (pa[t] * filter[n - 1]);
    }
  }

  /** Output cell (row, col) of the correlations of a, b and c, read off their tap sums. */
  lemma CorrelateCells(a: seq<real>, b: seq<real>, c: seq<real>, filter: seq<real>, rows: nat, cols: nat, k: nat,
                       row: nat, col: nat)
    requires |a| >= rows * cols && |b| >= rows * cols && |c| >= rows * cols && |filter| >= k * k && k % 2 == 1
    requires row < rows && col < cols
    ensures row * cols + col < rows * cols
    ensures TapsInside(|Padded(a, rows, cols, k)|, row, col, k, cols + k - 1, k * k)
    ensures Correlate(a, filter, rows, cols, k)[row * cols + col]
            == CorrSum(Padded(a, rows, cols, k), filter, cols + k - 1, k, row, col, k * k)
    ensures Correlate(b, filter, rows, cols, k)[row * cols + col]
            == CorrSum(Padded(b, rows, cols, k), filter, cols + k - 1, k, row, col, k * k)
    ensures Correlate(c, filter, rows, cols, k)[row * cols + col]
            == CorrSum(Padded(c, rows, cols, k), filter, cols + k - 1, k, row, col, k * k)
  {
    CorrelateAt(a, filter, rows, cols, k, row, col);
    CorrelateAt(b, filter, rows, cols, k, row, col);
    CorrelateAt(c, filter, rows, cols, k, row, col);
  }

  /** Correlation is additive in the input plane: correlating a + b gives the sum of the
      correlations of a and b. */
  lemma CorrelateAdditive(a: seq<real>, b: seq<real>, c: seq<real>, filter: seq<real>, rows: nat, cols: nat, k: nat)
    requires |a| >= rows * cols && |filter| >= k * k && k % 2 == 1
    requires IsSum(c, a, b)
    ensures IsSum(Correlate(c, filter, rows, cols, k), Correlate(a, filter, rows, cols, k), Correlate(b, filter, rows, cols, k))
  {
    PaddedAdditive(a, b, c, rows, cols, k);
    forall x | 0 <= x < rows * cols
      ensures Correlate(c, filter, rows, cols, k)[x] == Correlate(a, filter, rows, cols, k)[x] + Correlate(b, filter, rows, cols, k)[x]
    {
      FlatIndexSplit(x, cols, rows);
      var row, col := x / cols, x % cols;
      CorrelateCells(a, b, c, filter, rows, cols, k, row, col);
      CorrSumAdditive(Padded(a, rows, cols, k), Padded(b, rows, cols, k), Padded(c, rows, cols, k),
                      filter, cols + k - 1, k, row, col, k * k);
    }
  }
}
