/** C arithmetic as the restoration pipeline uses it, over Dafny's unbounded `int` and
    exact `real`: truncating conversion, truncating `%`, `round`, the textual macros,
    sums, and the two C library functions the pipeline calls. */
module CMath {

  /** `fabs`, and the ABS macro applied to a plain operand. */
  function Abs(x: real): (r: real)
    ensures r >= 0.0 && (r == x || r == -x)
  {
    if x < 0.0 then -x else x
  }

  /** The ABS macro on an `int` operand. */
  function AbsInt(x: int): (r: int)
    ensures r >= 0 && (r == x || r == -x)
  {
    if x < 0 then -x else x
  }

  /** The `(int)` conversion of a floating-point value: truncation toward zero. */
  function Trunc(x: real): (n: int)
    ensures x >= 0.0 ==> 0 <= n && n as real <= x < n as real + 1.0
    ensures x < 0.0 ==> n <= 0 && n as real - 1.0 < x <= n as real
  {
    if x >= 0.0 then x.Floor else -((-x).Floor)
  }

  /** C's `a % b` for a positive divisor: the remainder takes the sign of `a`. */
  function CMod(a: int, b: int): (r: int)
    requires b > 0
    ensures a >= 0 ==> 0 <= r < b
    ensures a < 0 ==> -b < r <= 0
    ensures (a - r) % b == 0
  {
    RemainderLeavesMultiple(a, b);
    RemainderLeavesMultiple(-a, b);
    if a >= 0 then a % b else -((-a) % b)
  }

  /** Taking away the remainder leaves a multiple of the divisor, and so does the
      negation of one. */
  lemma RemainderLeavesMultiple(a: int, b: int)
    requires b > 0
    ensures (a - a % b) % b == 0 && (-(a - a % b)) % b == 0
  {
    var q := a / b;
    assert a - a % b == b * q;
    MultipleMod(q, b);
    MultipleMod(-q, b);
    assert -(b * q) == b * (-q);
  }

  lemma MultipleMod(q: int, b: int)
    requires b > 0
    ensures (b * q) % b == 0
  {
    var x := b * q;
    var k := q - x / b;
    assert x % b == b * k by {
      assert x == b * (x / b) + x % b;
      assert b * q - b * (x / b) == b * k;
    }
    if k >= 1 {
      MulAtLeast(b, k);
    }
  }

  lemma MulAtLeast(b: int, k: int)
    requires b > 0 && k >= 1
    ensures b * k >= b
  {
    assert b * k == b + b * (k - 1);
  }

  /** C's `round`: to the nearest integer, halves away from zero. */
  function CRound(x: real): (n: int)
    ensures x - 0.5 <= n as real <= x + 0.5
    ensures x >= 0.0 ==> n >= 0 && x - 0.5 < n as real
    ensures x < 0.0 ==> n as real < x + 0.5
  {
    if x >= 0.0 then (x + 0.5).Floor else -((-x + 0.5).Floor)
  }

  /** `round` never reverses the order of its arguments. */
  lemma CRoundMonotone(x: real, y: real)
    requires x <= y
    ensures CRound(x) <= CRound(y)
  {
    if x >= 0.0 {
      assert (x + 0.5).Floor <= (y + 0.5).Floor;
    } else if y < 0.0 {
      assert (-y + 0.5).Floor <= (-x + 0.5).Floor;
    }
  }

  /** The MAX macro `(x > y) ? x : y`. */
  function MaxOf(x: real, y: real): (r: real)
    ensures r >= x && r >= y && (r == x || r == y)
  {
    if x > y then x else y
  }

  /** The MIN macro `(x < y) ? x : y`. */
  function MinOf(x: real, y: real): (r: real)
    ensures r <= x && r <= y && (r == x || r == y)
  {
    if x < y then x else y
  }

  /** Sum accumulated from the left, as the C loops do. */
  function Sum(s: seq<real>): real
  {
    if |s| == 0 then 0.0 else Sum(s[..|s| - 1]) + s[|s| - 1]
  }

  /** Arithmetic mean of a non-empty sequence. */
  function Mean(s: seq<real>): real
    requires |s| > 0
  {
    Sum(s) / |s| as real
  }

  lemma SumSnoc(s: seq<real>, x: real)
    ensures Sum(s + [x]) == Sum(s) + x
  {
    assert (s + [x])[..|s|] == s;
  }

  lemma {:induction false} SumScaled(s: seq<real>, t: seq<real>, k: real)
    requires |s| == |t|
    requires forall i :: 0 <= i < |s| ==> t[i] == k * s[i]
    ensures Sum(t) == k * Sum(s)
  {
    if |s| > 0 {
      SumScaled(s[..|s| - 1], t[..|t| - 1], k);
    }
  }

  lemma {:induction false} SumConstant(s: seq<real>, c: real)
    requires forall i :: 0 <= i < |s| ==> s[i] == c
    ensures Sum(s) == |s| as real * c
  {
    if |s| > 0 {
      SumConstant(s[..|s| - 1], c);
    }
  }

  /** Every entry of s multiplied by c. */
  function Scale(s: seq<real>, c: real): (r: seq<real>)
    ensures |r| == |s| && forall i :: 0 <= i < |s| ==> r[i] == c * s[i]
  {
    seq(|s|, i requires 0 <= i < |s| => c * s[i])
  }

  /** Scaling the first n entries and dropping the last of them is scaling the first n - 1. */
  lemma ScaleTake(s: seq<real>, n: nat, c: real)
    requires 0 < n <= |s|
    ensures Scale(s[..n], c)[..n - 1] == Scale(s[..n - 1], c)
    ensures Scale(s[..n], c)[n - 1] == c * s[n - 1]
  {
    var a, b := Scale(s[..n], c)[..n - 1], Scale(s[..n - 1], c);
    assert |a| == |b|;
    forall i | 0 <= i < |a|
      ensures a[i] == b[i]
    {
      assert s[..n][i] == s[..n - 1][i];
    }
  }

  /** The sum of a scaled sequence is the scaled sum. */
  lemma SumScale(s: seq<real>, c: real)
    ensures Sum(Scale(s, c)) == c * Sum(s)
  {
    SumScaled(s, Scale(s, c), c);
  }

  /** Scaling every value scales the mean. */
  lemma MeanScale(s: seq<real>, c: real)
    requires |s| > 0
    ensures Mean(Scale(s, c)) == c * Mean(s)
  {
    SumScale(s, c);
  }

  /** x * x. Kept as a function so that facts about a square stay attached to it. */
  function Sq(x: real): real
  {
    x * x
  }

  /** A square is never negative, and is zero exactly when its root is. */
  lemma SquareSign(x: real)
    ensures Sq(x) >= 0.0
    ensures x != 0.0 ==> Sq(x) > 0.0
    ensures x == 0.0 ==> Sq(x) == 0.0
  {
    if x > 0.0 {
      calc {
        Sq(x);
      ==
        x * x;
      > { assert x * x > 0.0 * x; }
        0.0;
      }
    } else if x < 0.0 {
      calc {
        Sq(x);
      ==
        (-x) * (-x);
      > { assert (-x) * (-x) > 0.0 * (-x); }
        0.0;
      }
    } else {
      calc {
        Sq(x);
      ==
        0.0 * 0.0;
      }
    }
  }

  /** The C library's `sqrt` and `pow`. Their numerics are not modelled: no value of
      either is fixed, beyond what `Sqrt` below states. */
  const LibSqrt: real -> real
  const LibPow: (real, real) -> real

  /** `sqrt` on the non-negative arguments the pipeline gives it: non-negative, and 0 at 0. */
  function Sqrt(x: real): (r: real)
    requires x >= 0.0
    ensures r >= 0.0
    ensures x == 0.0 ==> r == 0.0
  {
    if x == 0.0 then 0.0 else Abs(LibSqrt(x))
  }

  /** `pow`: non-negative for a non-negative base, otherwise left abstract. */
  function Pow(x: real, y: real): (r: real)
    ensures x >= 0.0 ==> r >= 0.0
  {
    if x >= 0.0 then Abs(LibPow(x, y)) else LibPow(x, y)
  }

  /** A quotient of a value between 0 and a positive divisor lies in [0, 1], and is 1
      when the two are equal. */
  lemma DivBetween(a: real, m: real)
    requires 0.0 <= a <= m && m > 0.0
    ensures 0.0 <= a / m <= 1.0
    ensures a == m ==> a / m == 1.0
  {
    assert a / m * m == a;
  }

  /** An image of 3n values is its three planes of n values, one after the other. */
  lemma ThreePlanes(s: seq<real>, n: nat)
    requires |s| == 3 * n
    ensures s == s[..n] + s[n..2 * n] + s[2 * n..3 * n]
  {
  }

  /** Row-major index arithmetic: cell (j, i) of an h x w plane lies inside it. */
  lemma RowMajorInBounds(j: int, i: int, w: int, h: int)
    requires 0 <= j < h && 0 <= i < w
    ensures 0 <= j * w + i < h * w
  {
    assert j * w <= (h - 1) * w by {
      MulLeq(j, h - 1, w);
    }
    assert (h - 1) * w + w == h * w;
  }

  lemma MulLeq(a: int, b: int, w: int)
    requires a <= b && w >= 0
    ensures a * w <= b * w
  {
    assert b * w - a * w == (b - a) * w;
  }

  /** Row-major index arithmetic: cell (j, i) is recovered by `/` and `%`. */
  lemma RowMajorDivMod(j: int, i: int, w: int)
    requires 0 <= j && 0 <= i < w
    ensures (j * w + i) / w == j && (j * w + i) % w == i
  {
    var x := j * w + i;
    var q, r := x / w, x % w;
    assert x == q * w + r && 0 <= r < w;
    assert (q - j) * w == i - r;
    if q > j {
      MulLeq(1, q - j, w);
    } else if q < j {
      MulLeq(1, j - q, w);
    }
  }

  /** A flat index into an m x n plane splits into a row below m and a column below n. */
  lemma FlatIndexSplit(x: int, n: nat, m: nat)
    requires 0 <= x < m * n
    ensures n > 0 && 0 <= x / n < m && 0 <= x % n < n
    ensures x == (x / n) * n + x % n
  {
    var q := x / n;
    if q >= m {
      MulLeq(m, q, n);
    }
  }
}
