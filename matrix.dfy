/** The dense matrix engine of pkg/matrix: a `TwoDimensional` object owns a row-major table
    of reals that some operations update in place; the free operations return fresh objects
    and leave their arguments alone. */
module Matrix {
  import opened Wrappers
  import opened MatrixSpec

  class TwoDimensional {
    /** The rows, as the source's `[][]float64` field. */
    var matrix: Mat

    /** The shape invariant every operation relies on: all rows have N entries. */
    ghost predicate Valid()
      reads this
    {
      Rectangular(matrix)
    }

    /** The struct literal `&TwoDimensional{matrix: rows}`. */
    constructor (rows: Mat)
      requires Rectangular(rows)
      ensures Valid() && matrix == rows
    {
      matrix := rows;
    }

    /** The number of rows. */
    function M(): (r: nat)
      reads this
      ensures r == |matrix|
    {
      |matrix|
    }

    /** The number of columns: the common row length, and 0 whenever there are no rows. */
    function N(): (r: nat)
      reads this
      ensures M() == 0 ==> r == 0
      ensures Valid() ==> forall i :: 0 <= i < M() ==> |matrix[i]| == r
    {
      if M() == 0 then 0 else |matrix[0]|
    }

    /** A deep duplicate in a fresh object; see `CopyIsIndependent`. */
    method Copy() returns (d: TwoDimensional)
      requires Valid()
      ensures fresh(d) && d.Valid() && d.matrix == matrix
    {
      var duplicate: Mat := seq(|matrix|, _ => []);
      for i := 0 to |matrix|
        invariant |duplicate| == |matrix|
        invariant forall r :: 0 <= r < i ==> duplicate[r] == matrix[r]
      {
        duplicate := duplicate[i := matrix[i]];
      }
      d := new TwoDimensional(duplicate);
    }

    /** Multiplies every entry by n, in place; the shape stays. */
    method MultiplicationInt(n: int)
      requires Valid()
      modifies this
      ensures Valid() && matrix == Scaled(old(matrix), n as real)
    {
      ghost var was := matrix;
      for i := 0 to |matrix|
        invariant |matrix| == |was|
        invariant forall r :: 0 <= r < |was| ==> |matrix[r]| == |was[r]|
        invariant forall r, c :: 0 <= r < i && 0 <= c < |was[r]| ==> matrix[r][c] == was[r][c] * n as real
        invariant forall r, c :: i <= r < |was| && 0 <= c < |was[r]| ==> matrix[r][c] == was[r][c]
      {
        for j := 0 to |matrix[i]|
          invariant |matrix| == |was|
          invariant forall r :: 0 <= r < |was| ==> |matrix[r]| == |was[r]|
          invariant forall r, c :: 0 <= r < i && 0 <= c < |was[r]| ==> matrix[r][c] == was[r][c] * n as real
          invariant forall c :: 0 <= c < j ==> matrix[i][c] == was[i][c] * n as real
          invariant forall c :: j <= c < |was[i]| ==> matrix[i][c] == was[i][c]
          invariant forall r, c :: i < r < |was| && 0 <= c < |was[r]| ==> matrix[r][c] == was[r][c]
        {
          matrix := matrix[i := matrix[i][j := matrix[i][j] * n as real]];
        }
      }
      Extensionality(matrix, Scaled(was, n as real));
    }

    /** Adds `other` entrywise, in place. On a shape mismatch it fails and changes nothing;
        `other` may be this very object, and is otherwise left unchanged. */
    method Sum(other: TwoDimensional) returns (err: Outcome)
      requires Valid() && other.Valid()
      modifies this
      ensures Valid()
      ensures err.Fail? <==> !SameShape(old(matrix), old(other.matrix))
      ensures err.Fail? ==> err.error == DiffSize && matrix == old(matrix)
      ensures err.Pass? ==> matrix == Added(old(matrix), old(other.matrix))
      ensures other != this ==> other.matrix == old(other.matrix)
    {
      if M() != other.M() || N() != other.N() {
        return Fail(DiffSize);
      }
      ghost var was, add := matrix, other.matrix;
      for i := 0 to M()
        invariant |matrix| == |was| && other.matrix == (if other == this then matrix else add)
        invariant forall r :: 0 <= r < |was| ==> |matrix[r]| == |was[r]|
        invariant forall r, c :: 0 <= r < i && 0 <= c < |was[r]| ==> matrix[r][c] == was[r][c] + add[r][c]
        invariant forall r, c :: i <= r < |was| && 0 <= c < |was[r]| ==> matrix[r][c] == was[r][c]
      {
        for j := 0 to N()
          invariant |matrix| == |was| && other.matrix == (if other == this then matrix else add)
          invariant forall r :: 0 <= r < |was| ==> |matrix[r]| == |was[r]|
          invariant forall r, c :: 0 <= r < i && 0 <= c < |was[r]| ==> matrix[r][c] == was[r][c] + add[r][c]
          invariant forall c :: 0 <= c < j ==> matrix[i][c] == was[i][c] + add[i][c]
          invariant forall c :: j <= c < |was[i]| ==> matrix[i][c] == was[i][c]
          invariant forall r, c :: i < r < |was| && 0 <= c < |was[r]| ==> matrix[r][c] == was[r][c]
        {
          matrix := matrix[i := matrix[i][j := matrix[i][j] + other.matrix[i][j]]];
        }
      }
      Extensionality(matrix, Added(was, add));
      return Pass;
    }

    /** Adds n to every entry, in place, by summing with a matrix filled with n;
        on a rectangular receiver that sum never fails. */
    method SumInt(n: int) returns (err: Outcome)
      requires Valid()
      modifies this
      ensures Valid() && err == Pass && matrix == Shifted(old(matrix), n as real)
    {
      var filled := NewTwoDimensionalWithValue(M(), N(), n);
      ShiftedIsAddedFilled(matrix, n as real);
      err := Sum(filled);  // always Pass: filled has the receiver's shape
    }
  }

  /** A matrix with no rows. */
  method NewTwoDimensional() returns (t: TwoDimensional)
    ensures fresh(t) && t.Valid() && t.matrix == [] && t.M() == 0 && t.N() == 0
  {
    t := new TwoDimensional([]);
  }

  /** Exactly m rows of n entries, each equal to v. */
  method NewTwoDimensionalWithValue(m: nat, n: nat, v: int) returns (t: TwoDimensional)
    ensures fresh(t) && t.Valid() && t.matrix == Filled(m, n, v as real)
  {
    var matrix: Mat := seq(m, _ => []);
    for i := 0 to m
      invariant |matrix| == m
      invariant forall r :: 0 <= r < i ==> matrix[r] == seq(n, _ => v as real)
    {
      var subSlice := seq(n, _ => 0.0);
      matrix := matrix[i := subSlice];
      for j := 0 to n
        invariant |matrix| == m && |matrix[i]| == n
        invariant forall r :: 0 <= r < i ==> matrix[r] == seq(n, _ => v as real)
        invariant forall c :: 0 <= c < j ==> matrix[i][c] == v as real
      {
        matrix := matrix[i := matrix[i][j := v as real]];
      }
      assert matrix[i] == seq(n, _ => v as real);
    }
    t := new TwoDimensional(matrix);
  }

  /** A fresh matrix of the same shape with every entry negated. */
  method Negative(m: TwoDimensional) returns (res: TwoDimensional)
    requires m.Valid()
    ensures fresh(res) && res.Valid() && res.matrix == Negated(m.matrix)
    ensures unchanged(m)
  {
    res := m.Copy();
    ghost var was := m.matrix;
    for i := 0 to |m.matrix|
      invariant |res.matrix| == |was| && forall r :: 0 <= r < |was| ==> |res.matrix[r]| == |was[r]|
      invariant forall r, c :: 0 <= r < i && 0 <= c < |was[r]| ==> res.matrix[r][c] == -was[r][c]
      invariant forall r, c :: i <= r < |was| && 0 <= c < |was[r]| ==> res.matrix[r][c] == was[r][c]
    {
      for j := 0 to |m.matrix[i]|
        invariant |res.matrix| == |was| && forall r :: 0 <= r < |was| ==> |res.matrix[r]| == |was[r]|
        invariant forall r, c :: 0 <= r < i && 0 <= c < |was[r]| ==> res.matrix[r][c] == -was[r][c]
        invariant forall c :: 0 <= c < j ==> res.matrix[i][c] == -was[i][c]
        invariant forall c :: j <= c < |was[i]| ==> res.matrix[i][c] == was[i][c]
        invariant forall r, c :: i < r < |was| && 0 <= c < |was[r]| ==> res.matrix[r][c] == was[r][c]
      {
        res.matrix := res.matrix[i := res.matrix[i][j := res.matrix[i][j] * -1.0]];
      }
    }
    Extensionality(res.matrix, Negated(was));
  }

  /** A fresh copy of `first` with every entry multiplied by n. */
  method MultiplicationInt(first: TwoDimensional, n: int) returns (m: TwoDimensional)
    requires first.Valid()
    ensures fresh(m) && m.Valid() && m.matrix == Scaled(first.matrix, n as real)
    ensures unchanged(first)
  {
    m := first.Copy();
    m.MultiplicationInt(n);
  }

  /** A fresh copy of `first` with n added to every entry; never an error for a rectangular input. */
  method SumInt(first: TwoDimensional, n: int) returns (r: Result<TwoDimensional>)
    requires first.Valid()
    ensures r.Ok? && fresh(r.value) && r.value.Valid() && r.value.matrix == Shifted(first.matrix, n as real)
    ensures unchanged(first)
  {
    var m := first.Copy();
    var err := m.SumInt(n);  // always Pass: the filled addend has the receiver's shape
    return Ok(m);
  }

  /** The matrix product. It fails exactly when first.N() != second.M(); otherwise it returns
      a fresh first.M() x second.N() matrix whose entry (i, j) is the sum over k of
      first[i][k] * second[k][j], and neither operand changes. */
  method Multiplication(first: TwoDimensional, second: TwoDimensional) returns (r: Result<TwoDimensional>)
    requires first.Valid() && second.Valid()
    ensures r.Err? <==> first.N() != second.M()
    ensures r.Err? ==> r.error == DiffSize
    ensures r.Ok? ==> fresh(r.value) && r.value.Valid() && r.value.matrix == Product(first.matrix, second.matrix)
    ensures unchanged(first) && unchanged(second)
  {
    if first.N() != second.M() {
      return Err(DiffSize);
    }
    ghost var a, b := first.matrix, second.matrix;
    ghost var p := Product(a, b);
    var res := NewTwoDimensionalWithValue(first.M(), second.N(), 0);
    // res is fresh and nobody else sees it until it is returned: its rows are accumulated
    // locally and stored back once complete.
    var cells := res.matrix;
    for i := 0 to |cells|
      invariant |cells| == |a| && forall r :: 0 <= r < |a| ==> |cells[r]| == Cols(b)
      invariant forall r, c :: 0 <= r < i && 0 <= c < Cols(b) ==> cells[r][c] == p[r][c]
      invariant forall r, c :: i <= r < |a| && 0 <= c < Cols(b) ==> cells[r][c] == 0.0
    {
      for j := 0 to |cells[i]|
        invariant |cells| == |a| && forall r :: 0 <= r < |a| ==> |cells[r]| == Cols(b)
        invariant forall r, c :: 0 <= r < i && 0 <= c < Cols(b) ==> cells[r][c] == p[r][c]
        invariant forall c :: 0 <= c < j ==> cells[i][c] == p[i][c]
        invariant forall c :: j <= c < Cols(b) ==> cells[i][c] == 0.0
        invariant forall r, c :: i < r < |a| && 0 <= c < Cols(b) ==> cells[r][c] == 0.0
      {
        for k := 0 to |second.matrix|
          invariant |cells| == |a| && forall r :: 0 <= r < |a| ==> |cells[r]| == Cols(b)
          invariant forall r, c :: 0 <= r < i && 0 <= c < Cols(b) ==> cells[r][c] == p[r][c]
          invariant forall c :: 0 <= c < j ==> cells[i][c] == p[i][c]
          invariant cells[i][j] == Dot(a[i], b, j, k)
          invariant forall c :: j < c < Cols(b) ==> cells[i][c] == 0.0
          invariant forall r, c :: i < r < |a| && 0 <= c < Cols(b) ==> cells[r][c] == 0.0
        {
          cells := cells[i := cells[i][j := cells[i][j] + first.matrix[i][k] * second.matrix[k][j]]];
        }
      }
    }
    Extensionality(cells, p);
    res.matrix := cells;
    return Ok(res);
  }

  /** The product for callers that have established first.N() == second.M()
      (the source panics otherwise). */
  method MustMultiplication(first: TwoDimensional, second: TwoDimensional) returns (res: TwoDimensional)
    requires first.Valid() && second.Valid() && first.N() == second.M()
    ensures fresh(res) && res.Valid() && res.matrix == Product(first.matrix, second.matrix)
    ensures unchanged(first) && unchanged(second)
  {
    var r := Multiplication(first, second);
    res := r.value;
  }

  /** The entrywise sum in a fresh object, for callers that have established equal shapes
      (the source panics otherwise): a copy of `first` summed in place with `second`. */
  method MustSum(first: TwoDimensional, second: TwoDimensional) returns (res: TwoDimensional)
    requires first.Valid() && second.Valid() && first.M() == second.M() && first.N() == second.N()
    ensures fresh(res) && res.Valid() && res.matrix == Added(first.matrix, second.matrix)
    ensures unchanged(first) && unchanged(second)
  {
    res := first.Copy();
    // The copy has first's shape, which is second's: the sum cannot fail.
    var err := res.Sum(second);
  }

  /** A copy does not share storage: updating the original afterwards leaves the copy
      as it was, and updating the copy leaves the original as it was. */
  method CopyIsIndependent(m: TwoDimensional, n: int) returns (d: TwoDimensional)
    requires m.Valid()
    modifies m
    ensures fresh(d) && d.matrix == Scaled(old(m.matrix), n as real)
    ensures m.matrix == Shifted(old(m.matrix), n as real)
  {
    d := m.Copy();
    d.MultiplicationInt(n);
    assert m.matrix == old(m.matrix);
    var err := m.SumInt(n);  // always Pass on a valid receiver
  }
}
