/**
 * The cube field's index arithmetic: a linear cell index `i` is split into a
 * column `(x, z)` and a layer offset `yoffset`, exactly as the job and the
 * creation loop of the component do it, with C#'s truncating `/`.
 */
module Grid {

  /** The three public size fields of the component. */
  datatype Dims = Dims(width: int, height: int, layers: int)

  /** `int.MaxValue` of C#. */
  const IntMax: int := 0x7fff_ffff

  /** `cubeCount`: one cube per cell. */
  function Count(d: Dims): (n: int)
  {
    d.width * d.height * d.layers
  }

  /** The configurations the model covers: no negative size, and a cell count that fits a C# `int`. */
  predicate WellFormed(d: Dims)
  {
    0 <= d.width && 0 <= d.height && 0 <= d.layers && Count(d) <= IntMax
  }

  /** A decoded cell: its column `(x, z)` and its offset `yoffset` inside the column. */
  datatype Cell = Cell(x: int, z: int, yoffset: int)

  /** The cell lies inside the `width` by `height` by `layers` box. */
  predicate InGrid(d: Dims, c: Cell)
  {
    0 <= c.x < d.width && 0 <= c.z < d.height && 0 <= c.yoffset < d.layers
  }

  /**
   * C#'s integer division `a / b` for a positive divisor: the quotient is
   * truncated toward zero, so the remainder `a - q * b` has the sign of `a`
   * (Dafny's own `/` is Euclidean and differs for negative `a`).
   */
  function CDiv(a: int, b: int): (q: int)
    requires b > 0
    ensures 0 <= a ==> 0 <= a - q * b < b
    ensures a < 0 ==> -b < a - q * b <= 0
  {
    if a >= 0 then a / b else -((-a) / b)
  }

  /** The decode of `PositionUpdateJob.Execute`: `x` divides by `width * layers`, `z` subtracts `x * height * layers`. */
  function Decode(d: Dims, i: int): (c: Cell)
    requires d.width > 0 && d.layers > 0
  {
    var x := CDiv(i, d.width * d.layers);
    var z := CDiv(i - x * d.height * d.layers, d.layers);
    Cell(x, z, i - x * d.width * d.layers - z * d.layers)
  }

  /** The linear index of a cell, inverse of `Decode` on the grid. */
  function Encode(d: Dims, c: Cell): (i: int)
  {
    c.x * d.width * d.layers + c.z * d.layers + c.yoffset
  }

  /**
   * The decode written out a second time in `CreateCubes`, where the column's
   * second coordinate is called `y` and the layer offset `z`.
   */
  function PlacementCoords(d: Dims, i: int): (xyz: (int, int, int))
    requires d.width > 0 && d.layers > 0
  {
    var x := CDiv(i, d.width * d.layers);
    var y := CDiv(i - x * d.height * d.layers, d.layers);
    var z := i - x * d.width * d.layers - y * d.layers;
    (x, y, z)
  }

  // ---------------------------------------------------------------------------
  // Arithmetic helpers

  lemma MulLe(a: int, b: int, c: int)
    requires a <= b && 0 <= c
    ensures a * c <= b * c
  {
    assert (b - a) * c >= 0;
  }

  lemma MulAssoc(a: int, b: int, c: int)
    ensures a * b * c == a * (b * c) == b * (a * c)
  {
  }

  /** A non-negative `i` below `b * n` has a quotient below `n`. */
  lemma QuotientBelow(i: int, b: int, n: int)
    requires b > 0 && 0 <= i < b * n
    ensures 0 <= i / b < n
  {
    var q := i / b;
    assert q * b <= i;
    if q >= n {
      MulLe(n, q, b);
    }
  }

  /** Division with a known quotient and remainder. */
  lemma DivUnique(a: int, b: int, q: int, r: int)
    requires b > 0 && 0 <= r < b && a == q * b + r
    ensures a / b == q
  {
    var q', r' := a / b, a % b;
    assert a == q' * b + r';
    if q' < q {
      MulLe(q' + 1, q, b);
    } else if q < q' {
      MulLe(q + 1, q', b);
    }
  }

  /** Truncating division of an exact multiple, of either sign, gives the factor back. */
  lemma CDivExact(q: int, b: int)
    requires b > 0
    ensures CDiv(q * b, b) == q
  {
    if q >= 0 {
      DivUnique(q * b, b, q, 0);
    } else {
      assert -(q * b) == (-q) * b;
      DivUnique(-(q * b), b, -q, 0);
    }
  }

  lemma PositiveFactors(d: Dims)
    requires 0 <= d.width && 0 <= d.height && 0 <= d.layers && Count(d) > 0
    ensures d.width > 0 && d.height > 0 && d.layers > 0
  {
  }

  // ---------------------------------------------------------------------------
  // Properties of the decode

  /** Every index is recovered from its decoded cell, whatever the dimensions. */
  lemma EncodeDecode(d: Dims, i: int)
    requires d.width > 0 && d.layers > 0
    ensures Encode(d, Decode(d, i)) == i
  {
  }

  /** Decode is injective on all indices, whatever the dimensions. */
  lemma DecodeInjective(d: Dims, i: int, j: int)
    requires d.width > 0 && d.layers > 0
    requires Decode(d, i) == Decode(d, j)
    ensures i == j
  {
    EncodeDecode(d, i);
    EncodeDecode(d, j);
  }

  /** The creation loop and the job decode the same index into the same cell. */
  lemma PlacementAgreesWithDecode(d: Dims, i: int)
    requires d.width > 0 && d.layers > 0
    ensures PlacementCoords(d, i) == (Decode(d, i).x, Decode(d, i).z, Decode(d, i).yoffset)
  {
  }

  lemma DivMod(a: int, b: int)
    requires b > 0
    ensures a == (a / b) * b + a % b && 0 <= a % b < b
  {
  }

  /** For a square field every valid index decodes to a cell inside the grid. */
  lemma {:induction false} DecodeInGrid(d: Dims, i: int)
    requires 0 <= d.layers && 0 <= d.width && d.width == d.height
    requires 0 <= i < Count(d)
    ensures InGrid(d, Decode(d, i))
  {
    PositiveFactors(d);
    var w, l := d.width, d.layers;
    var b := w * l;
    MulAssoc(w, w, l);
    QuotientBelow(i, b, w);
    var x, rem := i / b, i % b;
    DivMod(i, b);
    MulAssoc(x, w, l);
    var c := Decode(d, i);
    assert c.x == x;
    assert i - x * d.height * l == rem;
    QuotientBelow(rem, l, w);
    DivMod(rem, l);
    assert c.z == rem / l;
    assert c.yoffset == rem % l;
  }

  /** For a square field every grid cell is the decode of exactly one valid index: its encoding. */
  lemma {:induction false} DecodeEncode(d: Dims, c: Cell)
    requires d.width == d.height && InGrid(d, c)
    ensures 0 <= Encode(d, c) < Count(d)
    ensures Decode(d, Encode(d, c)) == c
  {
    var w, l := d.width, d.layers;
    var b := w * l;
    var i := Encode(d, c);
    var rem := c.z * l + c.yoffset;
    MulAssoc(c.x, w, l);
    assert i == c.x * b + rem;
    MulLe(0, c.z, l);
    MulLe(c.z + 1, w, l);
    assert 0 <= rem < b;
    DivUnique(i, b, c.x, rem);
    assert Decode(d, i).x == c.x;
    assert i - c.x * d.height * l == rem;
    DivUnique(rem, l, c.z, c.yoffset);
    assert Decode(d, i).z == c.z;
    MulLe(0, c.x, b);
    MulLe(c.x + 1, w, b);
    MulAssoc(w, w, l);
  }

  /** With `width < height` the index `width * layers` is valid but decodes to a negative `z`. */
  lemma {:induction false} NarrowFieldEscapes(d: Dims)
    requires 0 < d.width < d.height && d.layers > 0
    ensures 0 <= d.width * d.layers < Count(d)
    ensures Decode(d, d.width * d.layers).z == d.width - d.height < 0
  {
    var w, h, l := d.width, d.height, d.layers;
    var i := w * l;
    MulLe(2, h, i);
    MulAssoc(w, h, l);
    DivUnique(i, i, 1, 0);
    assert i - 1 * h * l == (w - h) * l;
    CDivExact(w - h, l);
  }

  /** With `width > height` the index `height * layers` is valid but decodes to `z == height`. */
  lemma {:induction false} WideFieldEscapes(d: Dims)
    requires 0 < d.height < d.width && d.layers > 0
    ensures 0 <= d.height * d.layers < Count(d)
    ensures Decode(d, d.height * d.layers).z == d.height
  {
    var w, h, l := d.width, d.height, d.layers;
    var i := h * l;
    MulLe(2, w, i);
    MulAssoc(w, h, l);
    MulLe(h + 1, w, l);
    DivUnique(i, w * l, 0, i);
    CDivExact(h, l);
  }

  /**
   * The decode stays inside the grid for every valid index exactly when the
   * field is square.
   */
  lemma {:induction false} DecodeInGridIffSquare(d: Dims)
    requires d.width > 0 && d.height > 0 && d.layers > 0
    ensures (forall i :: 0 <= i < Count(d) ==> InGrid(d, Decode(d, i))) <==> d.width == d.height
  {
    if d.width == d.height {
      forall i | 0 <= i < Count(d)
        ensures InGrid(d, Decode(d, i))
      {
        DecodeInGrid(d, i);
      }
    } else if d.width < d.height {
      NarrowFieldEscapes(d);
      assert !InGrid(d, Decode(d, d.width * d.layers));
    } else {
      WideFieldEscapes(d);
      assert !InGrid(d, Decode(d, d.height * d.layers));
    }
  }
}
