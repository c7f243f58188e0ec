/** The value semantics of the dense matrix engine: a matrix is a sequence of rows of exact reals,
    and every arithmetic operation of the engine is a function on such values. */
module MatrixSpec {

  /** Row-major storage: `s[i][j]` is the entry in row i, column j. */
  type Mat = seq<seq<real>>

  /** The row count M. */
  function Rows(s: Mat): nat {
    |s|
  }

  /** The column count N: the length of row 0, and 0 when there are no rows. */
  function Cols(s: Mat): nat {
    if |s| == 0 then 0 else |s[0]|
  }

  /** Every row has N entries. */
  predicate Rectangular(s: Mat) {
    forall i :: 0 <= i < |s| ==> |s[i]| == Cols(s)
  }

  /** The shape test of `Sum`: same M and same N. */
  predicate SameShape(s: Mat, t: Mat) {
    Rows(s) == Rows(t) && Cols(s) == Cols(t)
  }

  /** The shape test a matrix must pass to be multiplied by itself: M == N. */
  predicate IsSquare(s: Mat) {
    Rows(s) == Cols(s)
  }

  /** A matrix with zero rows reports shape 0 x 0, and has no entries at all. */
  lemma NoRowsMeansEmpty(s: Mat)
    requires Rows(s) == 0
    ensures Cols(s) == 0 && s == [] && Rectangular(s) && IsSquare(s)
  {
  }

  /** m rows of n entries, each equal to v. */
  function Filled(m: nat, n: nat, v: real): (r: Mat)
    ensures Rectangular(r) && Rows(r) == m && Cols(r) == (if m == 0 then 0 else n)
    ensures forall i :: 0 <= i < m ==> |r[i]| == n
    ensures forall i, j :: 0 <= i < m && 0 <= j < n ==> r[i][j] == v
  {
    seq(m, _ => seq(n, _ => v))
  }

  /** A matrix of the shape of s, filled with v (the engine builds it as
      `NewTwoDimensionalWithValue(s.M(), s.N(), v)`). */
  function FilledLike(s: Mat, v: real): (r: Mat)
    requires Rectangular(s)
    ensures Rectangular(r) && SameShape(r, s)
    ensures forall i :: 0 <= i < Rows(s) ==> |r[i]| == |s[i]|
    ensures forall i, j :: 0 <= i < Rows(s) && 0 <= j < |s[i]| ==> r[i][j] == v
  {
    Filled(Rows(s), Cols(s), v)
  }

  /** Every entry multiplied by c. */
  function Scaled(s: Mat, c: real): (r: Mat)
    ensures |r| == |s| && forall i :: 0 <= i < |s| ==> |r[i]| == |s[i]|
    ensures forall i, j :: 0 <= i < |s| && 0 <= j < |s[i]| ==> r[i][j] == s[i][j] * c
    ensures SameShape(r, s) && (Rectangular(s) ==> Rectangular(r))
  {
    seq(|s|, i requires 0 <= i < |s| => seq(|s[i]|, j requires 0 <= j < |s[i]| => s[i][j] * c))
  }

  /** Every entry sign-flipped. */
  function Negated(s: Mat): (r: Mat)
    ensures |r| == |s| && forall i :: 0 <= i < |s| ==> |r[i]| == |s[i]|
    ensures forall i, j :: 0 <= i < |s| && 0 <= j < |s[i]| ==> r[i][j] == -s[i][j]
    ensures SameShape(r, s) && (Rectangular(s) ==> Rectangular(r))
  {
    seq(|s|, i requires 0 <= i < |s| => seq(|s[i]|, j requires 0 <= j < |s[i]| => -s[i][j]))
  }

  /** Every entry incremented by c. */
  function Shifted(s: Mat, c: real): (r: Mat)
    ensures |r| == |s| && forall i :: 0 <= i < |s| ==> |r[i]| == |s[i]|
    ensures forall i, j :: 0 <= i < |s| && 0 <= j < |s[i]| ==> r[i][j] == s[i][j] + c
    ensures SameShape(r, s) && (Rectangular(s) ==> Rectangular(r))
  {
    seq(|s|, i requires 0 <= i < |s| => seq(|s[i]|, j requires 0 <= j < |s[i]| => s[i][j] + c))
  }

  /** The entrywise sum of two matrices of the same shape. */
  function Added(s: Mat, t: Mat): (r: Mat)
    requires Rectangular(s) && Rectangular(t) && SameShape(s, t)
    ensures Rectangular(r) && SameShape(r, s)
    ensures forall i :: 0 <= i < |s| ==> |r[i]| == |s[i]|
    ensures forall i, j :: 0 <= i < |s| && 0 <= j < |s[i]| ==> r[i][j] == s[i][j] + t[i][j]
  {
    seq(|s|, i requires 0 <= i < |s| => seq(|s[i]|, j requires 0 <= j < |s[i]| => s[i][j] + t[i][j]))
  }

  /** The first k terms of row . column j of b, accumulated left to right:
      row[0] * b[0][j] + ... + row[k-1] * b[k-1][j]. */
  function Dot(row: seq<real>, b: Mat, j: nat, k: nat): real
    requires Rectangular(b) && k <= |row| && k <= Rows(b) && j < Cols(b)
    decreases k
  {
    if k == 0 then 0.0 else Dot(row, b, j, k - 1) + row[k - 1] * b[k - 1][j]
  }

  /** The matrix product. Its shape is M(a) x N(b) as the engine allocates it; when a has
      no rows, N(a) == 0 == M(b) forces N(b) == 0 too, so the N() quirk never shows.
      Entry (i, j) is the full dot product of row i of a with column j of b. */
  function Product(a: Mat, b: Mat): (r: Mat)
    requires Rectangular(a) && Rectangular(b) && Cols(a) == Rows(b)
    ensures Rectangular(r) && Rows(r) == Rows(a) && Cols(r) == Cols(b)
    ensures forall i :: 0 <= i < Rows(a) ==> |r[i]| == Cols(b)
    ensures forall i, j :: 0 <= i < Rows(a) && 0 <= j < Cols(b) ==> r[i][j] == Dot(a[i], b, j, Rows(b))
  {
    seq(Rows(a), i requires 0 <= i < Rows(a) =>
      seq(Cols(b), j requires 0 <= j < Cols(b) => Dot(a[i], b, j, Rows(b))))
  }

  /** Two rectangular matrices with the same shape and the same entries are equal. */
  lemma Extensionality(s: Mat, t: Mat)
    requires Rectangular(s) && Rectangular(t) && SameShape(s, t)
    requires forall i, j :: 0 <= i < |s| && 0 <= j < |s[i]| ==> s[i][j] == t[i][j]
    ensures s == t
  {
    forall i | 0 <= i < |s|
      ensures s[i] == t[i]
    {
      assert |s[i]| == |t[i]|;
    }
  }

  /** `SumInt` adds a matrix filled with n; that is the same as shifting every entry by n. */
  lemma ShiftedIsAddedFilled(s: Mat, c: real)
    requires Rectangular(s)
    ensures Shifted(s, c) == Added(s, FilledLike(s, c))
  {
    Extensionality(Shifted(s, c), Added(s, FilledLike(s, c)));
  }

  /** Negation is multiplication by -1 (how `Negative` computes it). */
  lemma NegatedIsScaledByMinusOne(s: Mat)
    requires Rectangular(s)
    ensures Negated(s) == Scaled(s, -1.0)
  {
    Extensionality(Negated(s), Scaled(s, -1.0));
  }

  /** Additive identity: adding a zero-filled matrix of the same shape changes nothing. */
  lemma AddZeroIdentity(s: Mat)
    requires Rectangular(s)
    ensures Added(s, FilledLike(s, 0.0)) == s
  {
    Extensionality(Added(s, FilledLike(s, 0.0)), s);
  }

  /** Additive inverse: a matrix plus its negation is the zero matrix of its shape. */
  lemma AddNegatedIsZero(s: Mat)
    requires Rectangular(s)
    ensures Added(s, Negated(s)) == FilledLike(s, 0.0)
  {
    Extensionality(Added(s, Negated(s)), FilledLike(s, 0.0));
  }

  /** Scalar multiplication distributes over the entrywise sum. */
  lemma ScaledDistributesOverAdded(s: Mat, t: Mat, c: real)
    requires Rectangular(s) && Rectangular(t) && SameShape(s, t)
    ensures Scaled(Added(s, t), c) == Added(Scaled(s, c), Scaled(t, c))
  {
    var l, r := Scaled(Added(s, t), c), Added(Scaled(s, c), Scaled(t, c));
    forall i, j | 0 <= i < |l| && 0 <= j < |l[i]|
      ensures l[i][j] == r[i][j]
    {
      calc {
        l[i][j];
        (s[i][j] + t[i][j]) * c;
        s[i][j] * c + t[i][j] * c;
        r[i][j];
      }
    }
    Extensionality(l, r);
  }

  /** A worked example of the product: a 2 x 2 times a 2 x 1. */
  lemma ProductExample2x2By2x1()
    ensures Product([[-2.0, 1.0], [5.0, 4.0]], [[3.0], [-1.0]]) == [[-7.0], [11.0]]
  {
    var a: Mat, b: Mat := [[-2.0, 1.0], [5.0, 4.0]], [[3.0], [-1.0]];
    assert Rectangular(a) && Rectangular(b);
    assert Dot(a[0], b, 0, 2) == -7.0;
    assert Dot(a[1], b, 0, 2) == 11.0;
    Extensionality(Product(a, b), [[-7.0], [11.0]]);
  }

  /** A worked example of the product of two 3 x 3 matrices. */
  lemma ProductExample3x3()
    ensures Product([[5.0, 8.0, -4.0], [6.0, 9.0, -5.0], [4.0, 7.0, -3.0]],
                    [[3.0, 2.0, 5.0], [4.0, -1.0, 3.0], [9.0, 6.0, 5.0]])
         == [[11.0, -22.0, 29.0], [9.0, -27.0, 32.0], [13.0, -17.0, 26.0]]
  {
    var a: Mat := [[5.0, 8.0, -4.0], [6.0, 9.0, -5.0], [4.0, 7.0, -3.0]];
    var b: Mat := [[3.0, 2.0, 5.0], [4.0, -1.0, 3.0], [9.0, 6.0, 5.0]];
    var c: Mat := [[11.0, -22.0, 29.0], [9.0, -27.0, 32.0], [13.0, -17.0, 26.0]];
    assert Rectangular(a) && Rectangular(b) && Rectangular(c);
    forall i, j | 0 <= i < 3 && 0 <= j < 3
      ensures Product(a, b)[i][j] == c[i][j]
    {
      assert Dot(a[i], b, j, 1) == a[i][0] * b[0][j];
      assert Dot(a[i], b, j, 2) == a[i][0] * b[0][j] + a[i][1] * b[1][j];
      assert Dot(a[i], b, j, 3) == a[i][0] * b[0][j] + a[i][1] * b[1][j] + a[i][2] * b[2][j];
    }
    Extensionality(Product(a, b), c);
  }

  /** The entrywise sum example of the engine's tests, on exact reals. */
  lemma AddedExample()
    ensures Added([[0.0, 0.5, -0.5], [-0.3, 0.7, 0.6]], [[0.2, 0.3, -0.1], [0.9, -0.6, -0.2]])
         == [[0.2, 0.8, -0.6], [0.6, 0.1, 0.4]]
  {
    var s: Mat, t: Mat := [[0.0, 0.5, -0.5], [-0.3, 0.7, 0.6]], [[0.2, 0.3, -0.1], [0.9, -0.6, -0.2]];
    var r: Mat := [[0.2, 0.8, -0.6], [0.6, 0.1, 0.4]];
    assert Rectangular(s) && Rectangular(t) && Rectangular(r);
    Extensionality(Added(s, t), r);
  }

  /** The scalar multiplication example of the engine's tests, on exact reals
      (where 0.1 * 3 is exactly 0.3). */
  lemma ScaledExample()
    ensures Scaled([[1.0, 0.1, -0.1], [-1.0, -0.6, 0.5]], 3.0) == [[3.0, 0.3, -0.3], [-3.0, -1.8, 1.5]]
  {
    var s: Mat, r: Mat := [[1.0, 0.1, -0.1], [-1.0, -0.6, 0.5]], [[3.0, 0.3, -0.3], [-3.0, -1.8, 1.5]];
    assert Rectangular(s) && Rectangular(r);
    Extensionality(Scaled(s, 3.0), r);
  }
}
