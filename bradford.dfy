/** The Bradford chromatic adaptation of applyGreyWorldFull (whitebalance.c): cone
    responses of the illuminant and of the D65 white, the diagonal matrix of their
    ratios, the transform Bradford^-1 * diag * Bradford, and its application to every XYZ
    pixel through multiplyFlatMatrixRef. */
module Bradford {
  import opened CMath
  import opened Planes
  import opened FlatMatrix

  /** The Bradford cone response matrix, row-major. */
  const BradfordMatrix: seq<real> :=
    [0.8951, 0.2664, -0.1614,
     -0.7502, 1.7135, 0.0367,
     0.0389, -0.0685, 1.0296]

  /** The published inverse of the Bradford matrix, to seven decimal places. */
  const BradfordInverse: seq<real> :=
    [0.9869929, -0.1470543, 0.1599627,
     0.4323053, 0.5183603, 0.0492912,
     -0.0085287, 0.0400428, 0.9684867]

  /** TARGET_WHITE: the XYZ coordinates of the D65 reference white. */
  const TargetWhite: seq<real> := [0.95047, 1.0, 1.08883]

  /** The constants the computed illuminants are overwritten with. */
  const FixedIlluminant: seq<real> := [0.8017027977257660, 1.0, 0.642720796830038]

  /** Row i of a 3x3 matrix times a 3-vector. */
  lemma MatVecEntry(m: seq<real>, v: seq<real>, i: nat)
    requires |m| == 9 && |v| == 3 && i < 3
    ensures Product(m, v, 3, 3, 1)[i] == m[3 * i] * v[0] + m[3 * i + 1] * v[1] + m[3 * i + 2] * v[2]
  {
    ProductAt(m, v, 3, 3, 1, i, 0);
    assert Dot(m, v, 3, 3, 1, i, 0, 1) == m[3 * i] * v[0];
    assert Dot(m, v, 3, 3, 1, i, 0, 2) == m[3 * i] * v[0] + m[3 * i + 1] * v[1];
  }

  /** Cell (i, k) of the product of two 3x3 matrices. */
  lemma MatMatEntry(a: seq<real>, b: seq<real>, i: nat, k: nat)
    requires |a| == 9 && |b| == 9 && i < 3 && k < 3
    ensures Product(a, b, 3, 3, 3)[3 * i + k] == a[3 * i] * b[k] + a[3 * i + 1] * b[3 + k] + a[3 * i + 2] * b[6 + k]
  {
    ProductAt(a, b, 3, 3, 3, i, k);
    assert Dot(a, b, 3, 3, 3, i, k, 1) == a[3 * i] * b[k];
    assert Dot(a, b, 3, 3, 3, i, k, 2) == a[3 * i] * b[k] + a[3 * i + 1] * b[3 + k];
  }

  /** Multiplying a vector by a product of two 3x3 matrices is multiplying by one and then
      the other. */
  lemma ProductAssociates(a: seq<real>, b: seq<real>, v: seq<real>)
    requires |a| == 9 && |b| == 9 && |v| == 3
    ensures Product(Product(a, b, 3, 3, 3), v, 3, 3, 1) == Product(a, Product(b, v, 3, 3, 1), 3, 3, 1)
  {
    var ab := Product(a, b, 3, 3, 3);
    var bv := Product(b, v, 3, 3, 1);
    forall i | 0 <= i < 3
      ensures ab[3 * i] == a[3 * i] * b[0] + a[3 * i + 1] * b[3] + a[3 * i + 2] * b[6]
      ensures ab[3 * i + 1] == a[3 * i] * b[1] + a[3 * i + 1] * b[4] + a[3 * i + 2] * b[7]
      ensures ab[3 * i + 2] == a[3 * i] * b[2] + a[3 * i + 1] * b[5] + a[3 * i + 2] * b[8]
    {
      MatMatEntry(a, b, i, 0);
      MatMatEntry(a, b, i, 1);
      MatMatEntry(a, b, i, 2);
    }
    MatVecEntry(b, v, 0);
    MatVecEntry(b, v, 1);
    MatVecEntry(b, v, 2);
    forall i | 0 <= i < 3
      ensures Product(ab, v, 3, 3, 1)[i] == Product(a, bv, 3, 3, 1)[i]
    {
      RowAssociates(a, b, v, ab, bv, i);
    }
  }

  /** Entry i of the two sides of ProductAssociates, for any ab holding the entries of
      A B and any bv holding those of B v. */
  lemma RowAssociates(a: seq<real>, b: seq<real>, v: seq<real>, ab: seq<real>, bv: seq<real>, i: nat)
    requires |a| == 9 && |b| == 9 && |v| == 3 && |ab| == 9 && |bv| == 3 && i < 3
    requires ab[3 * i] == a[3 * i] * b[0] + a[3 * i + 1] * b[3] + a[3 * i + 2] * b[6]
    requires ab[3 * i + 1] == a[3 * i] * b[1] + a[3 * i + 1] * b[4] + a[3 * i + 2] * b[7]
    requires ab[3 * i + 2] == a[3 * i] * b[2] + a[3 * i + 1] * b[5] + a[3 * i + 2] * b[8]
    requires bv[0] == b[0] * v[0] + b[1] * v[1] + b[2] * v[2]
    requires bv[1] == b[3] * v[0] + b[4] * v[1] + b[5] * v[2]
    requires bv[2] == b[6] * v[0] + b[7] * v[1] + b[8] * v[2]
    ensures Product(ab, v, 3, 3, 1)[i] == Product(a, bv, 3, 3, 1)[i]
  {
    MatVecEntry(ab, v, i);
    MatVecEntry(a, bv, i);
    Regroup(a[3 * i], a[3 * i + 1], a[3 * i + 2], b, v, ab[3 * i], ab[3 * i + 1], ab[3 * i + 2], bv[0], bv[1], bv[2]);
  }

  /** A row (a0, a1, a2) times B v regroups as the row times B, that is (x0, x1, x2),
      times v. */
  lemma Regroup(a0: real, a1: real, a2: real, b: seq<real>, v: seq<real>,
                x0: real, x1: real, x2: real, y0: real, y1: real, y2: real)
    requires |b| == 9 && |v| == 3
    requires x0 == a0 * b[0] + a1 * b[3] + a2 * b[6]
    requires x1 == a0 * b[1] + a1 * b[4] + a2 * b[7]
    requires x2 == a0 * b[2] + a1 * b[5] + a2 * b[8]
    requires y0 == b[0] * v[0] + b[1] * v[1] + b[2] * v[2]
    requires y1 == b[3] * v[0] + b[4] * v[1] + b[5] * v[2]
    requires y2 == b[6] * v[0] + b[7] * v[1] + b[8] * v[2]
    ensures x0 * v[0] + x1 * v[1] + x2 * v[2] == a0 * y0 + a1 * y1 + a2 * y2
  {
  }

  /** The cone response of an XYZ colour: Bradford times the colour. */
  function ConeResponse(xyz: seq<real>): (cone: seq<real>)
    requires |xyz| == 3
    ensures |cone| == 3
  {
    Product(BradfordMatrix, xyz, 3, 3, 1)
  }

  /** The cone response written out row by row. */
  lemma ConeResponseRows(xyz: seq<real>)
    requires |xyz| == 3
    ensures ConeResponse(xyz)[0] == 0.8951 * xyz[0] + 0.2664 * xyz[1] - 0.1614 * xyz[2]
    ensures ConeResponse(xyz)[1] == -0.7502 * xyz[0] + 1.7135 * xyz[1] + 0.0367 * xyz[2]
    ensures ConeResponse(xyz)[2] == 0.0389 * xyz[0] - 0.0685 * xyz[1] + 1.0296 * xyz[2]
  {
    MatVecEntry(BradfordMatrix, xyz, 0);
    MatVecEntry(BradfordMatrix, xyz, 1);
    MatVecEntry(BradfordMatrix, xyz, 2);
  }

  /** The entries of the fixed illuminant. */
  predicate IsFixedIlluminant(v: seq<real>)
  {
    |v| == 3 && v[0] == 0.8017027977257660 && v[1] == 1.0 && v[2] == 0.642720796830038
  }

  /** The entries of the reference white. */
  predicate IsTargetWhite(v: seq<real>)
  {
    |v| == 3 && v[0] == 0.95047 && v[1] == 1.0 && v[2] == 1.08883
  }

  /** The cone responses of the fixed illuminant; none is 0, so the ratios are defined. */
  lemma FixedIlluminantCones(v: seq<real>)
    requires IsFixedIlluminant(v)
    ensures ConeResponse(v)[0] == 0.8802690376359650134
    ensures ConeResponse(v)[1] == 1.1356504143897927414
    ensures ConeResponse(v)[2] == 0.6244315712477394222
  {
    ConeResponseRows(v);
  }

  /** Every entry of a 3-vector is non-zero. */
  predicate NonZero3(v: seq<real>)
  {
    |v| == 3 && v[0] != 0.0 && v[1] != 0.0 && v[2] != 0.0
  }

  /** The diagonal matrix diag: target[i] / source[i] at index 4i, 0 elsewhere. */
  function Diagonal(target: seq<real>, source: seq<real>): (d: seq<real>)
    requires |target| == 3 && NonZero3(source)
    ensures |d| == 9
  {
    seq(9, k requires 0 <= k < 9 => if k % 4 == 0 then target[k / 4] / source[k / 4] else 0.0)
  }

  /** The diagonal matrix maps the source cone response onto the target one. */
  lemma DiagonalMapsSourceToTarget(target: seq<real>, source: seq<real>)
    requires |target| == 3 && NonZero3(source)
    ensures Product(Diagonal(target, source), source, 3, 3, 1) == target
  {
    var d := Diagonal(target, source);
    forall i | 0 <= i < 3
      ensures Product(d, source, 3, 3, 1)[i] == target[i]
    {
      MatVecEntry(d, source, i);
      assert target[i] / source[i] * source[i] == target[i];
    }
  }

  /** The chromatic adaptation transform for an illuminant whose cone responses are not
      0: Bradford^-1 * diag(target cone / source cone) * Bradford. */
  function Transformation(illuminant: seq<real>, white: seq<real>): (t: seq<real>)
    requires |illuminant| == 3 && |white| == 3 && NonZero3(ConeResponse(illuminant))
    ensures |t| == 9
  {
    var diag := Diagonal(ConeResponse(white), ConeResponse(illuminant));
    Product(Product(BradfordInverse, diag, 3, 3, 3), BradfordMatrix, 3, 3, 3)
  }

  /** The transform takes the illuminant to Bradford^-1 * Bradford * white. */
  lemma TransformationAdaptsIlluminant(illuminant: seq<real>, white: seq<real>)
    requires |illuminant| == 3 && |white| == 3 && NonZero3(ConeResponse(illuminant))
    ensures Product(Transformation(illuminant, white), illuminant, 3, 3, 1) == Product(BradfordInverse, ConeResponse(white), 3, 3, 1)
  {
    var diag := Diagonal(ConeResponse(white), ConeResponse(illuminant));
    var inner := Product(BradfordInverse, diag, 3, 3, 3);
    ProductAssociates(inner, BradfordMatrix, illuminant);
    ProductAssociates(BradfordInverse, diag, ConeResponse(illuminant));
    DiagonalMapsSourceToTarget(ConeResponse(white), ConeResponse(illuminant));
  }

  /** The cone response of the reference white. */
  lemma WhiteCone(v: seq<real>)
    requires IsTargetWhite(v)
    ensures ConeResponse(v)[0] == 0.941428535
    ensures ConeResponse(v)[1] == 1.040417467
    ensures ConeResponse(v)[2] == 1.089532651
  {
    ConeResponseRows(v);
  }

  /** The published inverse undoes Bradford on the reference white to within 1e-7 in
      every coordinate. */
  lemma WhiteRecovered(v: seq<real>)
    requires IsTargetWhite(v)
    ensures forall i :: 0 <= i < 3 ==> Abs(Product(BradfordInverse, ConeResponse(v), 3, 3, 1)[i] - v[i]) < 0.0000001
  {
    WhiteCone(v);
    var cone := ConeResponse(v);
    MatVecEntry(BradfordInverse, cone, 0);
    MatVecEntry(BradfordInverse, cone, 1);
    MatVecEntry(BradfordInverse, cone, 2);
  }

  /** With the fixed illuminant and the D65 white, the transform takes the illuminant to
      within 1e-7 of the white in every coordinate. */
  lemma FixedIlluminantBecomesWhite(illuminant: seq<real>, white: seq<real>)
    requires IsFixedIlluminant(illuminant) && IsTargetWhite(white)
    ensures NonZero3(ConeResponse(illuminant))
    ensures forall i :: 0 <= i < 3 ==> Abs(Product(Transformation(illuminant, white), illuminant, 3, 3, 1)[i] - white[i]) < 0.0000001
  {
    FixedIlluminantCones(illuminant);
    TransformationAdaptsIlluminant(illuminant, white);
    WhiteRecovered(white);
  }

  // ---------------------------------------------------------------------------------
  // The loops

  /** The diagonal built as the source does: a zeroed 3x3 buffer and one ratio written at
      index 4i for each channel i. */
  method BuildDiagonal(target: array<real>, source: array<real>) returns (diag: array<real>)
    requires target.Length == 3 && NonZero3(source[..])
    ensures fresh(diag) && diag[..] == Diagonal(target[..], source[..])
  {
    diag := new real[9](_ => 0.0);
    var i := 0;
    while i < 3
      invariant 0 <= i <= 3
      invariant forall k :: 0 <= k < 9 ==> diag[k] == if k % 4 == 0 && k / 4 < i then target[k / 4] / source[k / 4] else 0.0
    {
      diag[4 * i] := target[i] / source[i];
      i := i + 1;
    }
  }

  /** One pixel through the transform: the 3x1 product of the matrix and the pixel's
      coordinates. */
  function Transform(t: seq<real>, c: Pixel): (r: Pixel)
    requires |t| == 9
  {
    var p := Product(t, [c.c0, c.c1, c.c2], 3, 3, 1);
    Pixel(p[0], p[1], p[2])
  }

  /** The transform applied to every pixel of an image of n pixels. */
  function TransformAll(image: seq<real>, n: nat, t: seq<real>): (out: seq<real>)
    requires 3 * n <= |image| && |t| == 9
    ensures |out| == 3 * n
  {
    MapPixels(image, n, c => Transform(t, c))
  }

  /** The body of the per-pixel loop: the pixel loaded into xyz_pair, trans_xyz zeroed,
      the 3x1 product accumulated into it, and the result stored back. */
  method TransformPixel(xyz: array<real>, n: nat, t: array<real>, i: nat, pair: array<real>, trans: array<real>)
    requires xyz.Length == 3 * n && i < n && t.Length == 9 && pair.Length == 3 && trans.Length == 3
    requires xyz != t && pair != t && trans != t && pair != trans && pair != xyz && trans != xyz
    modifies xyz, pair, trans
    ensures PixelAt(xyz[..], n, i) == Transform(t[..], PixelAt(old(xyz[..]), n, i))
    ensures forall k :: 0 <= k < 3 * n && k != i && k != n + i && k != 2 * n + i ==> xyz[k] == old(xyz[k])
  {
    ghost var c := PixelAt(xyz[..], n, i);
    pair[0], pair[1], pair[2] := xyz[i], xyz[n + i], xyz[2 * n + i];
    assert pair[..] == [c.c0, c.c1, c.c2];
    trans[0], trans[1], trans[2] := 0.0, 0.0, 0.0;
    assert trans[..] == seq(3 * 1, _ => 0.0);
    var status := MultiplyFlatMatrixRef(t, pair, trans, 3, 3, 3, 1);
    AddProductToZeros(t[..], pair[..], 3, 3, 1);
    xyz[i], xyz[n + i], xyz[2 * n + i] := trans[0], trans[1], trans[2];
  }

  /** The per-pixel loop of applyGreyWorldFull: every XYZ pixel replaced, in place, by the
      transform of that pixel alone. */
  method TransformPixels(xyz: array<real>, n: nat, t: array<real>)
    requires xyz.Length == 3 * n && t.Length == 9 && xyz != t
    modifies xyz
    ensures xyz[..] == TransformAll(old(xyz[..]), n, t[..])
  {
    ghost var xyz0 := xyz[..];
    var pair := new real[3];
    var trans := new real[3];
    var i := 0;
    while i < n
      invariant 0 <= i <= n
      invariant forall x :: 0 <= x < i ==> PixelAt(xyz[..], n, x) == Transform(t[..], PixelAt(xyz0, n, x))
      invariant forall x :: i <= x < n ==> PixelAt(xyz[..], n, x) == PixelAt(xyz0, n, x)
    {
      ghost var before := xyz[..];
      TransformPixel(xyz, n, t, i, pair, trans);
      forall x | 0 <= x < n && x != i
        ensures PixelAt(xyz[..], n, x) == PixelAt(before, n, x)
      {
      }
      i := i + 1;
    }
    PixelsDetermineImage(xyz[..], TransformAll(xyz0, n, t[..]), n);
  }
}
