/** Associativity of the engine's matrix product, proved on the dot products that define it.
    The repeated squaring of the formula evaluator relies on it to mean a power of its argument. */
module MatrixAlgebra {
  import opened MatrixSpec

  /** The first n terms of row . (b . c) column j, when only the first k rows of c are summed
      in each entry of b . c: ai[0] * (b[0] . c)_k + ... + ai[n-1] * (b[n-1] . c)_k. */
  ghost function Regrouped(ai: seq<real>, b: Mat, c: Mat, j: nat, k: nat, n: nat): real
    requires Rectangular(b) && Rectangular(c) && Cols(b) == Rows(c)
    requires n <= |ai| && n <= Rows(b) && k <= Rows(c) && j < Cols(c)
    decreases n
  {
    if n == 0 then 0.0 else Regrouped(ai, b, c, j, k, n - 1) + ai[n - 1] * Dot(b[n - 1], c, j, k)
  }

  /** With no row of c summed, every inner dot product is empty. */
  lemma {:induction false} RegroupedNone(ai: seq<real>, b: Mat, c: Mat, j: nat, n: nat)
    requires Rectangular(b) && Rectangular(c) && Cols(b) == Rows(c)
    requires n <= |ai| && n <= Rows(b) && j < Cols(c)
    ensures Regrouped(ai, b, c, j, 0, n) == 0.0
  {
    if n > 0 {
      RegroupedNone(ai, b, c, j, n - 1);
    }
  }

  /** Summing one more row k of c adds (ai . column k of b) * c[k][j]. */
  lemma {:induction false} RegroupedStep(ai: seq<real>, b: Mat, c: Mat, j: nat, k: nat, n: nat)
    requires Rectangular(b) && Rectangular(c) && Cols(b) == Rows(c)
    requires n <= |ai| && n <= Rows(b) && k < Rows(c) && j < Cols(c)
    ensures Regrouped(ai, b, c, j, k + 1, n) == Regrouped(ai, b, c, j, k, n) + Dot(ai, b, k, n) * c[k][j]
  {
    if n > 0 {
      RegroupedStep(ai, b, c, j, k, n - 1);
      var x, y := ai[n - 1], c[k][j];
      var d, e := Dot(b[n - 1], c, j, k), b[n - 1][k];
      assert Dot(b[n - 1], c, j, k + 1) == d + e * y;
      assert x * (d + e * y) == x * d + (x * e) * y;
      assert Dot(ai, b, k, n) == Dot(ai, b, k, n - 1) + x * e;
      assert (Dot(ai, b, k, n - 1) + x * e) * y == Dot(ai, b, k, n - 1) * y + (x * e) * y;
    }
  }

  /** Row i of a . b, dotted with the first k rows of column j of c, is the regrouped sum. */
  lemma {:induction false} LeftGrouping(a: Mat, b: Mat, c: Mat, i: nat, j: nat, k: nat)
    requires Rectangular(a) && Rectangular(b) && Rectangular(c)
    requires Cols(a) == Rows(b) && Cols(b) == Rows(c)
    requires i < Rows(a) && j < Cols(c) && k <= Rows(c)
    ensures Dot(Product(a, b)[i], c, j, k) == Regrouped(a[i], b, c, j, k, Rows(b))
  {
    if k == 0 {
      RegroupedNone(a[i], b, c, j, Rows(b));
    } else {
      LeftGrouping(a, b, c, i, j, k - 1);
      RegroupedStep(a[i], b, c, j, k - 1, Rows(b));
    }
  }

  /** The first n terms of row i of a dotted with column j of b . c are the regrouped sum. */
  lemma {:induction false} RightGrouping(a: Mat, b: Mat, c: Mat, i: nat, j: nat, n: nat)
    requires Rectangular(a) && Rectangular(b) && Rectangular(c)
    requires Cols(a) == Rows(b) && Cols(b) == Rows(c)
    requires i < Rows(a) && j < Cols(c) && n <= Rows(b)
    ensures Dot(a[i], Product(b, c), j, n) == Regrouped(a[i], b, c, j, Rows(c), n)
  {
    if n > 0 {
      RightGrouping(a, b, c, i, j, n - 1);
    }
  }

  /** The matrix product is associative. */
  lemma ProductAssociative(a: Mat, b: Mat, c: Mat)
    requires Rectangular(a) && Rectangular(b) && Rectangular(c)
    requires Cols(a) == Rows(b) && Cols(b) == Rows(c)
    ensures Cols(Product(a, b)) == Rows(c) && Cols(a) == Rows(Product(b, c))
    ensures Product(Product(a, b), c) == Product(a, Product(b, c))
  {
    var l, r := Product(Product(a, b), c), Product(a, Product(b, c));
    forall i, j | 0 <= i < |l| && 0 <= j < |l[i]|
      ensures l[i][j] == r[i][j]
    {
      LeftGrouping(a, b, c, i, j, Rows(c));
      RightGrouping(a, b, c, i, j, Rows(b));
    }
    Extensionality(l, r);
  }
}
