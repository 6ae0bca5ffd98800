/**
 * Fixed-size integer matrices. A `Matrix<T, R, C>` wraps an array of R rows
 * of C values; R and C are compile-time parameters of the type, so here they
 * are passed alongside the matrix and `Shaped` says that the cells fit them.
 * Addition and subtraction go element by element over a copy of the left
 * operand; multiplication fills a zeroed R by K result with row-by-column sums.
 */
module Matrices {

  datatype Matrix = Matrix(cells: seq<seq<int>>)

  /** m has rows rows of cols values each. */
  predicate Shaped(m: Matrix, rows: nat, cols: nat) {
    |m.cells| == rows && forall i :: 0 <= i < rows ==> |m.cells[i]| == cols
  }

  /** `Matrix::from`: wraps the array so that indexing at (r, c) reads row r, column c of it. */
  function From(value: seq<seq<int>>): (m: Matrix)
    ensures |m.cells| == |value| && forall r :: 0 <= r < |value| ==> |m.cells[r]| == |value[r]|
    ensures forall r, c :: 0 <= r < |value| && 0 <= c < |value[r]| ==> Index(m, r, c) == value[r][c]
  {
    Matrix(value)
  }

  /** `matrix[(r, c)]`: the value in row r, column c; out of range the Rust code panics. */
  function Index(m: Matrix, r: nat, c: nat): int
    requires r < |m.cells| && c < |m.cells[r]|
  {
    m.cells[r][c]
  }

  /** The element-wise sum, the reference for `Add`. */
  function Plus(a: Matrix, b: Matrix, rows: nat, cols: nat): (r: Matrix)
    requires Shaped(a, rows, cols) && Shaped(b, rows, cols)
    ensures Shaped(r, rows, cols)
  {
    Matrix(seq(rows, i requires 0 <= i < rows =>
      seq(cols, j requires 0 <= j < cols => a.cells[i][j] + b.cells[i][j])))
  }

  /** The element-wise difference, the reference for `Sub`. */
  function Minus(a: Matrix, b: Matrix, rows: nat, cols: nat): (r: Matrix)
    requires Shaped(a, rows, cols) && Shaped(b, rows, cols)
    ensures Shaped(r, rows, cols)
  {
    Matrix(seq(rows, i requires 0 <= i < rows =>
      seq(cols, j requires 0 <= j < cols => a.cells[i][j] - b.cells[i][j])))
  }

  /** Row i of a times column j of b over their first n terms, summed from the first term on. */
  function Dot(a: Matrix, b: Matrix, i: nat, j: nat, n: nat): int
    requires i < |a.cells| && n <= |a.cells[i]| && n <= |b.cells|
    requires forall k :: 0 <= k < n ==> j < |b.cells[k]|
  {
    if n == 0 then 0 else Dot(a, b, i, j, n - 1) + a.cells[i][n - 1] * b.cells[n - 1][j]
  }

  /** The matrix product, the reference for `Mul`. */
  function Product(a: Matrix, b: Matrix, rows: nat, inner: nat, cols: nat): (r: Matrix)
    requires Shaped(a, rows, inner) && Shaped(b, inner, cols)
    ensures Shaped(r, rows, cols)
  {
    Matrix(seq(rows, i requires 0 <= i < rows =>
      seq(cols, j requires 0 <= j < cols => Dot(a, b, i, j, inner))))
  }

  /** Two matrices of the same shape with the same values are equal. */
  lemma Extensional(m: Matrix, n: Matrix, rows: nat, cols: nat)
    requires Shaped(m, rows, cols) && Shaped(n, rows, cols)
    requires forall i, j :: 0 <= i < rows && 0 <= j < cols ==> m.cells[i][j] == n.cells[i][j]
    ensures m == n
  {
    forall i | 0 <= i < rows
      ensures m.cells[i] == n.cells[i]
    {
      assert forall j :: 0 <= j < cols ==> m.cells[i][j] == n.cells[i][j];
    }
  }

  /** `impl Add for Matrix`: every value of self plus the value at the same place in rhs. */
  method Add(self: Matrix, rhs: Matrix, rows: nat, cols: nat) returns (r: Matrix)
    requires Shaped(self, rows, cols) && Shaped(rhs, rows, cols)
    ensures r == Plus(self, rhs, rows, cols)
  {
    var result := self.cells;
    for i := 0 to rows
      invariant |result| == rows && forall k :: 0 <= k < rows ==> |result[k]| == cols
      invariant forall k, l :: 0 <= k < rows && 0 <= l < cols ==>
        result[k][l] == if k < i then self.cells[k][l] + rhs.cells[k][l] else self.cells[k][l]
    {
      for j := 0 to cols
        invariant |result| == rows && forall k :: 0 <= k < rows ==> |result[k]| == cols
        invariant forall k, l :: 0 <= k < rows && 0 <= l < cols ==>
          result[k][l] == if k < i || (k == i && l < j) then self.cells[k][l] + rhs.cells[k][l] else self.cells[k][l]
      {
        result := result[i := result[i][j := result[i][j] + rhs.cells[i][j]]];
      }
    }
    r := Matrix(result);
    Extensional(r, Plus(self, rhs, rows, cols), rows, cols);
  }

  /** `impl Sub for Matrix`: every value of self minus the value at the same place in rhs. */
  method Sub(self: Matrix, rhs: Matrix, rows: nat, cols: nat) returns (r: Matrix)
    requires Shaped(self, rows, cols) && Shaped(rhs, rows, cols)
    ensures r == Minus(self, rhs, rows, cols)
  {
    var result := self.cells;
    for i := 0 to rows
      invariant |result| == rows && forall k :: 0 <= k < rows ==> |result[k]| == cols
      invariant forall k, l :: 0 <= k < rows && 0 <= l < cols ==>
        result[k][l] == if k < i then self.cells[k][l] - rhs.cells[k][l] else self.cells[k][l]
    {
      for j := 0 to cols
        invariant |result| == rows && forall k :: 0 <= k < rows ==> |result[k]| == cols
        invariant forall k, l :: 0 <= k < rows && 0 <= l < cols ==>
          result[k][l] == if k < i || (k == i && l < j) then self.cells[k][l] - rhs.cells[k][l] else self.cells[k][l]
      {
        result := result[i := result[i][j := result[i][j] - rhs.cells[i][j]]];
      }
    }
    r := Matrix(result);
    Extensional(r, Minus(self, rhs, rows, cols), rows, cols);
  }

  /**
   * `impl Mul for Matrix`: an R by C matrix times a C by K one. The result
   * starts as R by K zeros (`T::default()`), and each of its values is the sum,
   * from 0 upwards, of the products along row i of self and column j of rhs.
   */
  method Mul(self: Matrix, rhs: Matrix, rows: nat, inner: nat, cols: nat) returns (r: Matrix)
    requires Shaped(self, rows, inner) && Shaped(rhs, inner, cols)
    ensures r == Product(self, rhs, rows, inner, cols)
  {
    var result := seq(rows, _ => seq(cols, _ => 0));
    for i := 0 to rows
      invariant |result| == rows && forall k :: 0 <= k < rows ==> |result[k]| == cols
      invariant forall k, l :: 0 <= k < rows && 0 <= l < cols ==>
        result[k][l] == if k < i then Dot(self, rhs, k, l, inner) else 0
    {
      for j := 0 to cols
        invariant |result| == rows && forall k :: 0 <= k < rows ==> |result[k]| == cols
        invariant forall k, l :: 0 <= k < rows && 0 <= l < cols ==>
          result[k][l] == if k < i || (k == i && l < j) then Dot(self, rhs, k, l, inner) else 0
      {
        var sum := 0;
        for k := 0 to inner
          invariant sum == Dot(self, rhs, i, j, k)
        {
          sum := sum + self.cells[i][k] * rhs.cells[k][j];
        }
        result := result[i := result[i][j := sum]];
      }
    }
    r := Matrix(result);
    Extensional(r, Product(self, rhs, rows, inner, cols), rows, cols);
  }

  /** Subtracting what was added gives back the left operand, and addition commutes. */
  lemma PlusMinusCancel(a: Matrix, b: Matrix, rows: nat, cols: nat)
    requires Shaped(a, rows, cols) && Shaped(b, rows, cols)
    ensures Minus(Plus(a, b, rows, cols), b, rows, cols) == a
    ensures Plus(Minus(a, b, rows, cols), b, rows, cols) == a
    ensures Plus(a, b, rows, cols) == Plus(b, a, rows, cols)
  {
    Extensional(Minus(Plus(a, b, rows, cols), b, rows, cols), a, rows, cols);
    Extensional(Plus(Minus(a, b, rows, cols), b, rows, cols), a, rows, cols);
    Extensional(Plus(a, b, rows, cols), Plus(b, a, rows, cols), rows, cols);
  }

  /** The n by n identity matrix. */
  function Identity(n: nat): (m: Matrix)
    ensures Shaped(m, n, n)
  {
    Matrix(seq(n, i => seq(n, j => if i == j then 1 else 0)))
  }

  /** Summing a row against an identity column picks out one value, or none past the sum's end. */
  lemma {:induction false} DotIdentity(a: Matrix, i: nat, j: nat, n: nat, size: nat)
    requires i < |a.cells| && n <= |a.cells[i]| && n <= size && j < size
    ensures Dot(a, Identity(size), i, j, n) == if j < n then a.cells[i][j] else 0
  {
    if n > 0 {
      DotIdentity(a, i, j, n - 1, size);
    }
  }

  /** Multiplying by the identity on the right gives the matrix back. */
  lemma ProductIdentity(a: Matrix, rows: nat, cols: nat)
    requires Shaped(a, rows, cols)
    ensures Product(a, Identity(cols), rows, cols, cols) == a
  {
    forall i, j | 0 <= i < rows && 0 <= j < cols
      ensures Product(a, Identity(cols), rows, cols, cols).cells[i][j] == a.cells[i][j]
    {
      DotIdentity(a, i, j, cols, cols);
    }
    Extensional(Product(a, Identity(cols), rows, cols, cols), a, rows, cols);
  }

  /** The `matrix_add` and `matrix_sub` tests, and the addition and subtraction examples. */
  lemma AddSubExamples()
    ensures Plus(Matrix([[1, 2, 3], [4, 5, 6]]), Matrix([[1, 1, 1], [1, 1, 1]]), 2, 3)
         == Matrix([[2, 3, 4], [5, 6, 7]])
    ensures Minus(Matrix([[1, 2, 3], [4, 5, 6]]), Matrix([[1, 1, 1], [1, 1, 1]]), 2, 3)
         == Matrix([[0, 1, 2], [3, 4, 5]])
  {
    var a, b := Matrix([[1, 2, 3], [4, 5, 6]]), Matrix([[1, 1, 1], [1, 1, 1]]);
    Extensional(Plus(a, b, 2, 3), Matrix([[2, 3, 4], [5, 6, 7]]), 2, 3);
    Extensional(Minus(a, b, 2, 3), Matrix([[0, 1, 2], [3, 4, 5]]), 2, 3);
  }

  /** The `matrix_mul` test: a 2 by 3 times a 3 by 2 matrix. */
  lemma MulExample()
    ensures Product(Matrix([[1, 2, 3], [4, 5, 6]]), Matrix([[7, 8], [9, 10], [11, 12]]), 2, 3, 2)
         == Matrix([[58, 64], [139, 154]])
  {
    var a, b := Matrix([[1, 2, 3], [4, 5, 6]]), Matrix([[7, 8], [9, 10], [11, 12]]);
    assert Dot(a, b, 0, 0, 3) == 58 && Dot(a, b, 0, 1, 3) == 64;
    assert Dot(a, b, 1, 0, 3) == 139 && Dot(a, b, 1, 1, 3) == 154;
    Extensional(Product(a, b, 2, 3, 2), Matrix([[58, 64], [139, 154]]), 2, 2);
  }

  /**
   * The multiplication example in the documentation: a 1 by 3 row times a 3 by
   * 1 column is the 1 by 1 matrix [[14]], not the column [[1], [4], [9]] the
   * comment there gives.
   */
  lemma MulDocExample()
    ensures Product(Matrix([[1, 2, 3]]), Matrix([[1], [2], [3]]), 1, 3, 1) == Matrix([[14]])
  {
    var a, b := Matrix([[1, 2, 3]]), Matrix([[1], [2], [3]]);
    assert Dot(a, b, 0, 0, 3) == 14;
    Extensional(Product(a, b, 1, 3, 1), Matrix([[14]]), 1, 1);
  }
}
