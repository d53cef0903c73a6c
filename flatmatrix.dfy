/** Matrices stored flat in row-major order, and the multiplication whitebalance.c uses
    for the Bradford transform: multiplyFlatMatrixRef accumulates a product into an
    existing buffer after a dimension check, multiplyFlatMatrix returns a fresh product. */
module FlatMatrix {
  import opened CMath

  /** The row-major index of cell (a, b) of an h x w matrix. */
  function Idx(a: nat, b: nat, w: nat, h: nat): (x: nat)
    requires a < h && b < w
    ensures x < h * w && x == a * w + b
  {
    RowMajorInBounds(a, b, w, h);
    a * w + b
  }

  /** Cell (i, k) of the product of an lr x lc matrix and an lc x rc matrix, summed over
      the first m terms. */
  function Dot(left: seq<real>, right: seq<real>, lr: nat, lc: nat, rc: nat, i: nat, k: nat, m: nat): real
    requires |left| == lr * lc && |right| == lc * rc
    requires i < lr && k < rc && m <= lc
  {
    if m == 0 then 0.0
    else Dot(left, right, lr, lc, rc, i, k, m - 1) + left[Idx(i, m - 1, lc, lr)] * right[Idx(m - 1, k, rc, lc)]
  }

  /** A zero row of the left matrix, or a zero column of the right one, gives a zero cell. */
  lemma {:induction false} DotOfZeroLine(left: seq<real>, right: seq<real>, lr: nat, lc: nat, rc: nat, i: nat, k: nat, m: nat)
    requires |left| == lr * lc && |right| == lc * rc
    requires i < lr && k < rc && m <= lc
    requires (forall j :: 0 <= j < m ==> left[Idx(i, j, lc, lr)] == 0.0)
             || (forall j :: 0 <= j < m ==> right[Idx(j, k, rc, lc)] == 0.0)
    ensures Dot(left, right, lr, lc, rc, i, k, m) == 0.0
  {
    if m > 0 {
      DotOfZeroLine(left, right, lr, lc, rc, i, k, m - 1);
      assert left[Idx(i, m - 1, lc, lr)] == 0.0 || right[Idx(m - 1, k, rc, lc)] == 0.0;
    }
  }

  /** The lr x rc product of an lr x lc matrix and an lc x rc matrix. */
  function Product(left: seq<real>, right: seq<real>, lr: nat, lc: nat, rc: nat): (p: seq<real>)
    requires |left| == lr * lc && |right| == lc * rc
    ensures |p| == lr * rc
  {
    seq(lr * rc, x requires 0 <= x < lr * rc => ProductCell(left, right, lr, lc, rc, x))
  }

  function ProductCell(left: seq<real>, right: seq<real>, lr: nat, lc: nat, rc: nat, x: nat): real
    requires |left| == lr * lc && |right| == lc * rc && x < lr * rc
  {
    FlatIndexSplit(x, rc, lr);
    Dot(left, right, lr, lc, rc, x / rc, x % rc, lc)
  }

  /** Cell (i, k) of the product is the sum over the inner dimension. */
  lemma ProductAt(left: seq<real>, right: seq<real>, lr: nat, lc: nat, rc: nat, i: nat, k: nat)
    requires |left| == lr * lc && |right| == lc * rc && i < lr && k < rc
    ensures Product(left, right, lr, lc, rc)[Idx(i, k, rc, lr)] == Dot(left, right, lr, lc, rc, i, k, lc)
  {
    RowMajorDivMod(i, k, rc);
  }

  /** A buffer with a product added into it, cell by cell. */
  function AddProduct(out: seq<real>, left: seq<real>, right: seq<real>, lr: nat, lc: nat, rc: nat): (r: seq<real>)
    requires |out| == lr * rc && |left| == lr * lc && |right| == lc * rc
    ensures |r| == lr * rc
    ensures forall x :: 0 <= x < lr * rc ==> r[x] == out[x] + Product(left, right, lr, lc, rc)[x]
  {
    var p := Product(left, right, lr, lc, rc);
    seq(lr * rc, x requires 0 <= x < lr * rc => out[x] + p[x])
  }

  /** Adding a product into a zeroed buffer gives the product. */
  lemma AddProductToZeros(left: seq<real>, right: seq<real>, lr: nat, lc: nat, rc: nat)
    requires |left| == lr * lc && |right| == lc * rc
    ensures AddProduct(seq(lr * rc, _ => 0.0), left, right, lr, lc, rc) == Product(left, right, lr, lc, rc)
  {
  }

  /** The innermost loop of multiplyFlatMatrixRef: term j of every cell of row i. */
  method AddTerm(left: array<real>, right: array<real>, output: array<real>,
                 lr: nat, lc: nat, rc: nat, i: nat, j: nat)
    requires left.Length == lr * lc && right.Length == lc * rc && output.Length == lr * rc
    requires output != left && output != right
    requires i < lr && j < lc
    modifies output
    ensures forall b :: 0 <= b < rc ==> output[Idx(i, b, rc, lr)] == old(output[Idx(i, b, rc, lr)]) + left[Idx(i, j, lc, lr)] * right[Idx(j, b, rc, lc)]
    ensures forall x :: 0 <= x < output.Length && !(i * rc <= x < i * rc + rc) ==> output[x] == old(output[x])
  {
    ghost var out0, r := output[..], right[..];
    var l := left[Idx(i, j, lc, lr)];
    ghost var row := i * rc;
    var k := 0;
    while k < rc
      invariant 0 <= k <= rc
      invariant forall b :: 0 <= b < k ==> output[Idx(i, b, rc, lr)] == out0[Idx(i, b, rc, lr)] + l * r[Idx(j, b, rc, lc)]
      invariant forall x :: 0 <= x < output.Length && !(row <= x < row + k) ==> output[x] == out0[x]
    {
      output[Idx(i, k, rc, lr)] := output[Idx(i, k, rc, lr)] + l * right[Idx(j, k, rc, lc)];
      k := k + 1;
    }
  }

  /** The two inner loops of multiplyFlatMatrixRef: row i of the product added in. */
  method AddRow(left: array<real>, right: array<real>, output: array<real>,
                lr: nat, lc: nat, rc: nat, i: nat)
    requires left.Length == lr * lc && right.Length == lc * rc && output.Length == lr * rc
    requires output != left && output != right
    requires i < lr
    modifies output
    ensures forall b :: 0 <= b < rc ==> output[Idx(i, b, rc, lr)] == old(output[Idx(i, b, rc, lr)]) + Dot(left[..], right[..], lr, lc, rc, i, b, lc)
    ensures forall x :: 0 <= x < output.Length && !(i * rc <= x < i * rc + rc) ==> output[x] == old(output[x])
  {
    var j := 0;
    while j < lc
      invariant 0 <= j <= lc
      invariant forall b :: 0 <= b < rc ==> output[Idx(i, b, rc, lr)] == old(output[Idx(i, b, rc, lr)]) + Dot(left[..], right[..], lr, lc, rc, i, b, j)
      invariant forall x :: 0 <= x < output.Length && !(i * rc <= x < i * rc + rc) ==> output[x] == old(output[x])
    {
      AddTerm(left, right, output, lr, lc, rc, i, j);
      j := j + 1;
    }
  }

  /** multiplyFlatMatrixRef: when the inner dimensions differ, -1 and the output left
      untouched; otherwise 0 and the product added into the existing output. */
  method MultiplyFlatMatrixRef(left: array<real>, right: array<real>, output: array<real>,
                               lr: nat, lc: nat, rr: nat, rc: nat) returns (status: int)
    requires left.Length == lr * lc && right.Length == rr * rc && output.Length == lr * rc
    requires output != left && output != right
    modifies output
    ensures lc != rr ==> status == -1 && output[..] == old(output[..])
    ensures lc == rr ==> status == 0 && output[..] == AddProduct(old(output[..]), left[..], right[..], lr, lc, rc)
  {
    if lc != rr {
      return -1;
    }
    ghost var out0 := output[..];
    var i := 0;
    while i < lr
      invariant 0 <= i <= lr
      invariant forall a, b :: 0 <= a < i && 0 <= b < rc ==> output[Idx(a, b, rc, lr)] == out0[Idx(a, b, rc, lr)] + Dot(left[..], right[..], lr, lc, rc, a, b, lc)
      invariant forall x :: i * rc <= x < output.Length ==> output[x] == out0[x]
    {
      ghost var before := output[..];
      AddRow(left, right, output, lr, lc, rc, i);
      forall a, b | 0 <= a < i && 0 <= b < rc
        ensures output[Idx(a, b, rc, lr)] == before[Idx(a, b, rc, lr)]
      {
        MulLeq(a + 1, i, rc);
        assert (a + 1) * rc == a * rc + rc;
      }
      forall b | 0 <= b < rc
        ensures before[Idx(i, b, rc, lr)] == out0[Idx(i, b, rc, lr)]
      {
      }
      assert (i + 1) * rc == i * rc + rc;
      i := i + 1;
    }
    forall x | 0 <= x < lr * rc
      ensures output[x] == out0[x] + Product(left[..], right[..], lr, lc, rc)[x]
    {
      FlatIndexSplit(x, rc, lr);
      assert x == Idx(x / rc, x % rc, rc, lr);
      assert Product(left[..], right[..], lr, lc, rc)[x] == Dot(left[..], right[..], lr, lc, rc, x / rc, x % rc, lc);
    }
    return 0;
  }

  /** multiplyFlatMatrix: a fresh buffer holding the product, or null when the inner
      dimensions differ. */
  method MultiplyFlatMatrix(left: array<real>, right: array<real>, lr: nat, lc: nat, rr: nat, rc: nat)
    returns (output: array?<real>)
    requires left.Length == lr * lc && right.Length == rr * rc
    ensures lc != rr ==> output == null
    ensures lc == rr ==> output != null && fresh(output) && output[..] == Product(left[..], right[..], lr, lc, rc)
  {
    var buffer := new real[lr * rc](_ => 0.0);
    assert buffer[..] == seq(lr * rc, _ => 0.0);
    var status := MultiplyFlatMatrixRef(left, right, buffer, lr, lc, rr, rc);
    if status != 0 {
      output := null;
    } else {
      AddProductToZeros(left[..], right[..], lr, lc, rc);
      output := buffer;
    }
  }
}
