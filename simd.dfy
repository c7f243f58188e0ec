/** The formula evaluator of pkg/simd: a processor over four input matrices and the exponent
    parameter K. Every method works on copies or freshly built matrices; none has a
    `modifies` clause, so none can change A, B, E or G, and each is proved to compute the
    corresponding function of SimdSpec. */
module Simd {
  import opened Wrappers
  import opened MatrixSpec
  import opened Matrix
  import opened SimdSpec

  /** A method's `(matrix, error)` result carries what the spec function computes:
      the same error, or a valid matrix holding the same value. */
  ghost predicate Agrees(r: Result<TwoDimensional>, s: Result<Mat>)
    reads if r.Ok? then {r.value} else {}
  {
    match r
    case Ok(m) => s.Ok? && m.Valid() && m.matrix == s.value
    case Err(e) => s == Err(e)
  }

  /** The pattern `one := NewTwoDimensionalWithValue(rows, cols, 1); one.Sum(Negative(m))`
      for the shape rows x cols of m: a fresh 1 - m. The sum cannot fail, as both addends
      have m's shape. */
  method OneMinus(rows: nat, cols: nat, m: TwoDimensional) returns (one: TwoDimensional)
    requires m.Valid() && rows == m.M() && cols == m.N()
    ensures fresh(one) && one.Valid() && one.matrix == Added(FilledLike(m.matrix, 1.0), Negated(m.matrix))
    ensures unchanged(m)
  {
    one := NewTwoDimensionalWithValue(rows, cols, 1);
    var negM := Negative(m);
    var err := one.Sum(negM);  // same shape: cannot fail
  }

  /** The inner term of secondSumOfResult, 4 . (f . v) - 3v: the product is scaled in
      place, and v is copied before it is scaled. */
  method ScaledDifference(f: TwoDimensional, v: TwoDimensional) returns (m: TwoDimensional)
    requires f.Valid() && v.Valid() && IsSquare(f.matrix) && Cols(f.matrix) == Rows(v.matrix)
    ensures fresh(m) && m.Valid()
    ensures m.matrix == Added(Scaled(Product(f.matrix, v.matrix), 4.0), Negated(Scaled(v.matrix, 3.0)))
    ensures unchanged(f) && unchanged(v)
  {
    m := MustMultiplication(f, v);
    m.MultiplicationInt(4);
    var duplDijk := v.Copy();
    duplDijk.MultiplicationInt(3);
    var negDijk := Negative(duplDijk);
    // f is square and fits v, so m has v's shape: the sum cannot fail.
    var err := m.Sum(negDijk);
  }

  /** The inputs of the evaluator. */
  datatype ProcessorArgs = ProcessorArgs(A: TwoDimensional, B: TwoDimensional, E: TwoDimensional,
                                         G: TwoDimensional, K: int)

  /** The processor, together with the three formula coefficients that the evaluator uses
      but does not define (`convRes`, `multInt`, `bToA`). */
  datatype Processor = Processor(args: ProcessorArgs, convRes: int, multInt: int, bToA: int) {

    ghost predicate Valid()
      reads args.A, args.B, args.E, args.G
    {
      args.A.Valid() && args.B.Valid() && args.E.Valid() && args.G.Valid()
    }

    /** The current values of the inputs. */
    ghost function Values(): (x: Inputs)
      reads args.A, args.B, args.E, args.G
      ensures Valid() ==> WellFormed(x)
    {
      Inputs(args.A.matrix, args.B.matrix, args.E.matrix, args.G.matrix, args.K, convRes, multInt, bToA)
    }

    /** Result: S1 + S2, failing with the first error of either. */
    method Result() returns (r: Result<TwoDimensional>)
      requires Valid() && FormulaSafe(Values())
      ensures Agrees(r, Formula(Values())) && (r.Ok? ==> fresh(r.value))
    {
      var firstRes := FirstSumOfResult();
      if firstRes.Err? {
        return firstRes;
      }
      var secondRes := SecondSumOfResult();
      if secondRes.Err? {
        return secondRes;
      }
      // S1 and S2 both have E.M() rows and G.N() columns here, so the sum cannot fail.
      var err := firstRes.value.Sum(secondRes.value);
      return firstRes;
    }

    /** fThreeDimensional: T1 + T2, accumulated into T1's fresh result. */
    method FThreeDimensional() returns (r: Result<TwoDimensional>)
      requires Valid()
      ensures Agrees(r, F3(Values())) && (r.Ok? ==> fresh(r.value))
    {
      var res := FirstSumOfThreeDem();
      if res.Err? {
        return res;
      }
      // T2 needs only what T1 needed (a square E), so it succeeds now, with E's shape.
      var secondRes := SecondSumOfThreeDem();
      var err := res.value.Sum(secondRes.value);
      return res;
    }

    /** dThreeDimensional: A . B. */
    method DThreeDimensional() returns (r: Result<TwoDimensional>)
      requires Valid()
      ensures Agrees(r, D(Values())) && (r.Ok? ==> fresh(r.value))
    {
      r := Multiplication(args.A, args.B);
    }

    /** evaluateKTimes: squares a copy of its argument K times. The loop keeps
        dupl == Y_i; only the first squaring can meet a non-square matrix. */
    method EvaluateKTimes(dimensional: TwoDimensional) returns (r: Result<TwoDimensional>)
      requires dimensional.Valid()
      ensures Agrees(r, Power(dimensional.matrix, args.K)) && (r.Ok? ==> fresh(r.value))
    {
      var dupl := dimensional.Copy();
      var i := 0;
      while i < args.K
        invariant 0 <= i && (i == 0 || i <= args.K)
        invariant fresh(dupl) && dupl.Valid()
        invariant i > 0 ==> IsSquare(dimensional.matrix)
        invariant dupl.matrix == Sq(dimensional.matrix, i)
        decreases args.K - i
      {
        var next := Multiplication(dupl, dupl);
        if next.Err? {
          return next;
        }
        dupl := next.value;
        i := i + 1;
      }
      return Ok(dupl);
    }

    /** firstSumOfResult: (fijk . (3G - 2)) . G, with G copied before it is scaled. */
    method FirstSumOfResult() returns (r: Result<TwoDimensional>)
      requires Valid()
      ensures Agrees(r, S1(Values())) && (r.Ok? ==> fresh(r.value))
    {
      ghost var x := Values();
      var res := Fijk();
      if res.Err? {
        return res;
      }
      var duplG := args.G.Copy();
      duplG.MultiplicationInt(3);
      var minusTwo := NewTwoDimensionalWithValue(duplG.M(), duplG.N(), -2);
      var err := duplG.Sum(minusTwo);  // same shape: cannot fail
      assert duplG.matrix == Added(Scaled(x.g, 3.0), FilledLike(Scaled(x.g, 3.0), -2.0));
      assert Values() == x;
      var resMult := Multiplication(res.value, duplG);
      if resMult.Err? {
        return resMult;
      }
      var gCopy := args.G.Copy();
      r := Multiplication(resMult.value, gCopy);
    }

    /** secondSumOfResult: (V + (4 . (fijk . V) - 3V) . G) . (1 + G). Its `Must*` calls
        are the requirement SecondSumSafe. */
    method SecondSumOfResult() returns (r: Result<TwoDimensional>)
      requires Valid() && SecondSumSafe(Values())
      ensures Agrees(r, S2(Values())) && (r.Ok? ==> fresh(r.value))
    {
      ghost var x := Values();
      var vDijk := VDijk();
      if vDijk.Err? {
        return vDijk;
      }
      var fijk := Fijk();
      if fijk.Err? {
        return fijk;
      }
      var vd, fi := vDijk.value, fijk.value;
      ghost var v, f := vd.matrix, fi.matrix;
      SecondSumSteps(x, v, f);
      ghost var m := Added(Scaled(Product(f, v), 4.0), Negated(Scaled(v, 3.0)));
      var mult := ScaledDifference(fi, vd);
      assert vd.matrix == v && args.G.matrix == x.g;
      var mult' := MustMultiplication(mult, args.G);
      assert mult'.matrix == Product(m, x.g) && vd.matrix == v;
      var sum := MustSum(vd, mult');
      assert sum.matrix == Added(v, Product(m, x.g));
      var one := NewTwoDimensionalWithValue(args.G.M(), args.G.N(), 1);
      var gSum := MustSum(one, args.G);
      assert gSum.matrix == Added(FilledLike(x.g, 1.0), x.g);
      var res := MustMultiplication(sum, gSum);
      assert Values() == x;
      return Ok(res);
    }

    /** firstSumOfThreeDem: ((E + 2) - 1) . convRes, times E. */
    method FirstSumOfThreeDem() returns (r: Result<TwoDimensional>)
      requires Valid()
      ensures Agrees(r, T1(Values())) && (r.Ok? ==> fresh(r.value))
    {
      var multRes := SumInt(args.E, 2);          // never an error
      var sumRes := SumInt(multRes.value, -1);   // never an error
      var scaled := MultiplicationInt(sumRes.value, convRes);
      r := Multiplication(scaled, args.E);
    }

    /** secondSumOfThreeDem: ((E . multInt + 1) . bToA), times (1 - E). */
    method SecondSumOfThreeDem() returns (r: Result<TwoDimensional>)
      requires Valid()
      ensures Agrees(r, T2(Values())) && (r.Ok? ==> fresh(r.value))
    {
      ghost var x := Values();
      var mult := MultiplicationInt(args.E, multInt);
      var one := NewTwoDimensionalWithValue(mult.M(), mult.N(), 1);
      var err := one.Sum(mult);  // same shape: cannot fail
      assert one.matrix == Added(FilledLike(mult.matrix, 1.0), mult.matrix);
      var multRes := MultiplicationInt(one, bToA);
      var oneE := OneMinus(args.E.M(), args.E.N(), args.E);
      assert Values() == x;
      r := Multiplication(multRes, oneE);
    }

    /** vDijk: 1 - P, where P = evaluateKTimes(1 - D). */
    method VDijk() returns (r: Result<TwoDimensional>)
      requires Valid()
      ensures Agrees(r, V(Values())) && (r.Ok? ==> fresh(r.value))
    {
      ghost var x := Values();
      var dijk := DThreeDimensional();
      if dijk.Err? {
        return dijk;
      }
      var one := OneMinus(dijk.value.M(), dijk.value.N(), dijk.value);
      var evaluated := EvaluateKTimes(one);
      if evaluated.Err? {
        return evaluated;
      }
      // evaluated has D's shape, so 1 - evaluated may be built with D's dimensions.
      var newOne := OneMinus(dijk.value.M(), dijk.value.N(), evaluated.value);
      assert Values() == x;
      return Ok(newOne);
    }

    /** fijk: F3 raised to the power 2^K. */
    method Fijk() returns (r: Result<TwoDimensional>)
      requires Valid()
      ensures Agrees(r, Fk(Values())) && (r.Ok? ==> fresh(r.value))
    {
      var fThreeDimensional := FThreeDimensional();
      if fThreeDimensional.Err? {
        return fThreeDimensional;
      }
      r := EvaluateKTimes(fThreeDimensional.value);
    }
  }
}
